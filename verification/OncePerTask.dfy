/** At most once: how often the adapter runs for one task over every history of sessions,
    and the exact condition on the plan. */
module OncePerTask {
  import opened Prelude
  import opened Plan
  import opened Journal
  import opened ExecutionLog
  import opened RealExecution
  import opened CrashSafety

  // ---------- one session, seen from one task ----------

  /** The session so far extends `h` legally for `id`, and its journal mirrors the durable one. */
  ghost predicate Tracks(h: seq<Op>, c: Cursor, id: string) {
    Obeys(h + c.log, id) && JournalOf(h + c.log) == c.journal
  }

  lemma PerformTracks(h: seq<Op>, c: Cursor, op: Op, id: string)
    requires Tracks(h, c, id) && LegalFor(h + c.log, op, id) && !op.Append?
    ensures Tracks(h, Perform(c, op), id)
  {
    assert h + (c.log + [op]) == (h + c.log) + [op];
    Snoc(h + c.log, op);
  }

  lemma PushTracks(env: Env, h: seq<Op>, c: Cursor, task: string, step: Transition, id: string)
    requires Tracks(h, c, id) && (task == id ==> LegalTransition(StatusIn(c.journal, id), step))
    ensures var p := Pushed(env, c, task, step);
      && Tracks(h, p, id)
      && (task == id && step.Running? ==> JustRunning(h + p.log, id))
  {
    var op := Append(NewEvent(env, c.seqNo, task, step));
    assert h + (c.log + [op]) == (h + c.log) + [op];
    Snoc(h + c.log, op);
  }

  lemma EmitTracks(env: Env, h: seq<Op>, c: Cursor, task: string, step: Transition, id: string)
    requires Tracks(h, c, id) && (task == id ==> LegalTransition(StatusIn(c.journal, id), step))
    ensures var c' := Emit(env, c, task, step);
      && Tracks(h, c', id)
      && StatusIn(c'.journal, id) == (if task == id then Some(StatusOf(step)) else StatusIn(c.journal, id))
      && (task == id && step.Running? ==> JustRunning(h + c'.log, id))
  {
    PushTracks(env, h, c, task, step, id);
    LatestStatus(c.journal, NewEvent(env, c.seqNo, task, step), id);
    var p := Pushed(env, c, task, step);
    if p.since >= env.snapshotEvery || step.Terminal() {
      var op := WriteSnapshot(Reduce(p.journal));
      PerformTracks(h, p, op, id);
      assert h + (p.log + [op]) == (h + p.log) + [op];
      Snoc(h + p.log, op);
    }
  }

  lemma FinishTracks(env: Env, h: seq<Op>, c: Cursor, task: string, t: Turn, id: string)
    requires Tracks(h, c, id) && (task == id ==> JustRunning(h + c.log, id) && StatusIn(c.journal, id) == Some(IsRunning))
    ensures var r := Finish(env, c, task, t).cursor;
      Tracks(h, r, id) && (task != id ==> StatusIn(r.journal, id) == StatusIn(c.journal, id))
  {
    PerformTracks(h, c, Execute(task), id);
    var executed := Perform(c, Execute(task));
    if Applies(t) {
      assert h + executed.log == (h + c.log) + [Execute(task)];
      PerformTracks(h, executed, ApplyChangeSet(task), id);
    }
    var done := if Applies(t) then Perform(executed, ApplyChangeSet(task)) else executed;
    EmitTracks(env, h, done, task, Conclusion(t, EvidenceRef(task)), id);
  }

  lemma RunTaskTracks(env: Env, h: seq<Op>, c: Cursor, task: string, t: Turn, id: string)
    requires Tracks(h, c, id) && (task == id ==> Startable(c.journal, id))
    ensures var r := RunTask(env, c, task, t).cursor;
      Tracks(h, r, id) && (task != id ==> StatusIn(r.journal, id) == StatusIn(c.journal, id))
  {
    if t.abortBefore.Some? {
      EmitTracks(env, h, c, task, Cancelled(t.abortBefore.value, None), id);
    } else {
      EmitTracks(env, h, c, task, Pending, id);
      var c1 := Emit(env, c, task, Pending);
      EmitTracks(env, h, c1, task, Running, id);
      var c2 := Emit(env, c1, task, Running);
      if IsSynthetic(task) {
        EmitTracks(env, h, c2, task, Succeeded(EvidenceRef(task)), id);
      } else {
        FinishTracks(env, h, c2, task, t, id);
      }
    }
  }

  lemma CountFirst(ids: seq<string>, id: string)
    requires ids != []
    ensures multiset(ids)[id] == (if ids[0] == id then 1 else 0) + multiset(ids[1..])[id]
  {
    assert ids == [ids[0]] + ids[1..];
  }

  lemma {:induction false} RunTasksTrack(env: Env, h: seq<Op>, c: Cursor, ids: seq<string>, turn: nat, id: string)
    requires Tracks(h, c, id) && multiset(ids)[id] <= 1 && (multiset(ids)[id] == 1 ==> Startable(c.journal, id))
    ensures Tracks(h, RunTasks(env, c, ids, turn).cursor, id)
    decreases ids
  {
    if ids != [] {
      CountFirst(ids, id);
      RunTaskTracks(env, h, c, ids[0], env.turn(turn), id);
      var r := RunTask(env, c, ids[0], env.turn(turn));
      if r.stop.None? { RunTasksTrack(env, h, r.cursor, ids[1..], turn + 1, id); }
    }
  }

  /** What is left of a plan holds an unfinished task as often as the plan does, and a finished one not at all. */
  lemma {:induction false} RemainingCount(ids: seq<string>, j: seq<Event>, id: string)
    ensures multiset(Remaining(ids, j))[id] == if Finished(j, id) then 0 else multiset(ids)[id]
  {
    if ids != [] {
      var n := |ids| - 1;
      RemainingCount(ids[..n], j, id);
      assert ids == ids[..n] + [ids[n]];
    }
  }

  /** Among `r`, at most one event is about `id`, and it closes `id` as left running by `j`. */
  ghost predicate ClosesOnly(j: seq<Event>, r: seq<Event>, id: string) {
    forall i :: 0 <= i < |r| && r[i].taskId == id ==>
      r[i].step.Terminal() && StatusIn(j, id) == Some(IsRunning) && forall k :: 0 <= k < i ==> r[k].taskId != id
  }

  lemma ClosesFewer(j: seq<Event>, r: seq<Event>, id: string)
    requires r != [] && ClosesOnly(j, r, id)
    ensures ClosesOnly(j, r[..|r| - 1], id)
    ensures r[|r| - 1].taskId == id ==> LegalTransition(StatusIn(j + r[..|r| - 1], id), r[|r| - 1].step)
  {
    var n := |r| - 1;
    if r[n].taskId == id { UntouchedRecord(j, r[..n], id); }
  }

  lemma {:induction false} AppendsTrack(h: seq<Op>, r: seq<Event>, id: string)
    requires Obeys(h, id) && ClosesOnly(JournalOf(h), r, id)
    ensures Obeys(h + Appends(r), id) && JournalOf(h + Appends(r)) == JournalOf(h) + r
  {
    if r == [] {
      assert h + Appends(r) == h && JournalOf(h) + r == JournalOf(h);
    } else {
      var n := |r| - 1;
      ClosesFewer(JournalOf(h), r, id);
      AppendsTrack(h, r[..n], id);
      AppendTracks(h + Appends(r[..n]), r[n], id);
      assert h + Appends(r) == (h + Appends(r[..n])) + [Append(r[n])];
      assert JournalOf(h) + r == (JournalOf(h) + r[..n]) + [r[n]];
    }
  }

  lemma AppendTracks(h: seq<Op>, e: Event, id: string)
    requires Obeys(h, id) && (e.taskId == id ==> LegalTransition(StatusIn(JournalOf(h), id), e.step))
    ensures Obeys(h + [Append(e)], id) && JournalOf(h + [Append(e)]) == JournalOf(h) + [e]
  {
    Snoc(h, Append(e));
  }

  lemma OpeningTracks(env: Env, h: seq<Op>, id: string)
    requires Obeys(h, id)
    ensures var c := Opening(env, JournalOf(h));
      Tracks(h, c, id) && !IsOrphan(c.journal, id)
  {
    var j := JournalOf(h);
    ReplayExact(j, env.runId, env.replayedAt, NextSeq(j));
    AppendsTrack(h, Orphans(env, j), id);
    ReplaySettles(j, env.runId, env.replayedAt, NextSeq(j), id);
  }

  /** A whole session, over whatever the others left behind, keeps the discipline for every task its plan names once at most. */
  lemma SessionTracks(env: Env, h: seq<Op>, id: string)
    requires Obeys(h, id) && multiset(Ids(env.tasks))[id] <= 1
    ensures Tracks(h, Session(env, JournalOf(h)).cursor, id)
  {
    var c := Opening(env, JournalOf(h));
    OpeningTracks(env, h, id);
    RemainingCount(Ids(env.tasks), c.journal, id);
    RunTasksTrack(env, h, c, Remaining(Ids(env.tasks), c.journal), 0, id);
  }

  // ---------- every history of crashes and restarts ----------

  /** No session's plan names `id` twice; other ids may repeat. */
  ghost predicate NamedOnce(boots: seq<Boot>, id: string) {
    forall i :: 0 <= i < |boots| ==> multiset(Ids(boots[i].env.tasks))[id] <= 1
  }

  lemma {:induction false} LifetimeObeys(boots: seq<Boot>, id: string)
    requires NamedOnce(boots, id)
    ensures Obeys(Lifetime(boots), id)
  {
    if boots != [] {
      var n := |boots| - 1;
      LifetimeObeys(boots[..n], id);
      var before, b := Lifetime(boots[..n]), boots[n];
      SessionTracks(b.env, before, id);
      CutObeys(before, Session(b.env, JournalOf(before)).cursor.log, b.cut, id);
    }
  }

  lemma CutObeys(h: seq<Op>, log: seq<Op>, cut: nat, id: string)
    requires Obeys(h + log, id)
    ensures Obeys(h + if cut < |log| then log[..cut] else log, id)
  {
    if cut < |log| {
      ObeysPrefix(h + log, id, |h| + cut);
      assert (h + log)[..|h| + cut] == h + log[..cut];
    }
  }

  /** Over any sequence of sessions, crashes at any step and restarts, the adapter runs at most
      once for every task that no plan names twice, its change set is applied at most once, and
      only after it ran. */
  lemma AtMostOnceEver(boots: seq<Boot>, id: string)
    requires NamedOnce(boots, id)
    ensures Executed(Lifetime(boots))[id] <= 1 && Applied(Lifetime(boots))[id] <= 1
    ensures Applied(Lifetime(boots))[id] == 1 ==> Executed(Lifetime(boots))[id] == 1
  {
    LifetimeObeys(boots, id);
    AtMostOnce(Lifetime(boots), id);
  }

  // ---------- synthetic tasks ----------

  ghost predicate NeverCalls(log: seq<Op>, id: string) {
    forall i :: 0 <= i < |log| ==> log[i] != Execute(id) && log[i] != ApplyChangeSet(id)
  }

  lemma RunTaskNeverCalls(env: Env, c: Cursor, task: string, t: Turn, id: string)
    requires IsSynthetic(id) && NeverCalls(c.log, id)
    ensures NeverCalls(RunTask(env, c, task, t).cursor.log, id)
  {
    if t.abortBefore.Some? {
      EmitNeverCalls(env, c, task, Cancelled(t.abortBefore.value, None), id);
    } else {
      var c1 := Emit(env, c, task, Pending);
      EmitNeverCalls(env, c, task, Pending, id);
      EmitNeverCalls(env, c1, task, Running, id);
      var c2 := Emit(env, c1, task, Running);
      if IsSynthetic(task) {
        EmitNeverCalls(env, c2, task, Succeeded(EvidenceRef(task)), id);
      } else {
        var executed := Perform(c2, Execute(task));
        var done := if Applies(t) then Perform(executed, ApplyChangeSet(task)) else executed;
        EmitNeverCalls(env, done, task, Conclusion(t, EvidenceRef(task)), id);
      }
    }
  }

  lemma EmitNeverCalls(env: Env, c: Cursor, task: string, step: Transition, id: string)
    requires NeverCalls(c.log, id)
    ensures NeverCalls(Emit(env, c, task, step).log, id)
  {
  }

  lemma {:induction false} RunTasksNeverCall(env: Env, c: Cursor, ids: seq<string>, turn: nat, id: string)
    requires IsSynthetic(id) && NeverCalls(c.log, id)
    ensures NeverCalls(RunTasks(env, c, ids, turn).cursor.log, id)
    decreases ids
  {
    if ids != [] {
      RunTaskNeverCalls(env, c, ids[0], env.turn(turn), id);
      var r := RunTask(env, c, ids[0], env.turn(turn));
      if r.stop.None? { RunTasksNeverCall(env, r.cursor, ids[1..], turn + 1, id); }
    }
  }

  lemma {:induction false} NoCallsNoCount(h: seq<Op>, id: string)
    requires NeverCalls(h, id)
    ensures Executed(h)[id] == 0 && Applied(h)[id] == 0
  {
    if h != [] {
      NoCallsNoCount(h[..|h| - 1], id);
    }
  }

  lemma {:induction false} LifetimeNeverCalls(boots: seq<Boot>, id: string)
    requires IsSynthetic(id)
    ensures NeverCalls(Lifetime(boots), id)
  {
    if boots != [] {
      var n := |boots| - 1;
      LifetimeNeverCalls(boots[..n], id);
      var b, j := boots[n], JournalOf(Lifetime(boots[..n]));
      var c := Opening(b.env, j);
      assert NeverCalls(c.log, id);
      assert NeverCalls(Session(b.env, j).cursor.log, id) by {
        RunTasksNeverCall(b.env, c, Remaining(Ids(b.env.tasks), c.journal), 0, id);
      }
      CutNeverCalls(Lifetime(boots[..n]), Session(b.env, j).cursor.log, b.cut, id);
    }
  }

  lemma CutNeverCalls(h: seq<Op>, log: seq<Op>, cut: nat, id: string)
    requires NeverCalls(h, id) && NeverCalls(log, id)
    ensures NeverCalls(h + if cut < |log| then log[..cut] else log, id)
  {
  }

  /** A synthetic task never reaches the adapter, in any history, however often plans name it. */
  lemma SyntheticNeverRuns(boots: seq<Boot>, id: string)
    requires IsSynthetic(id)
    ensures Executed(Lifetime(boots))[id] == 0 && Applied(Lifetime(boots))[id] == 0
  {
    LifetimeNeverCalls(boots, id);
    NoCallsNoCount(Lifetime(boots), id);
  }

  // ---------- tasks named more than once ----------

  const SUCCESS := Turn(None, Quiet, ChangeSet([true]))

  lemma EmitExecutesNothing(env: Env, c: Cursor, id: string, step: Transition)
    ensures Executed(Emit(env, c, id, step).log) == Executed(c.log)
  {
  }

  lemma SuccessExecutes(env: Env, c: Cursor, id: string)
    ensures var r := RunTask(env, c, id, SUCCESS);
      r.stop == None && Executed(r.cursor.log) == Executed(c.log) + if IsSynthetic(id) then multiset{} else multiset{id}
  {
    var c1 := Emit(env, c, id, Pending);
    var c2 := Emit(env, c1, id, Running);
    EmitExecutesNothing(env, c, id, Pending);
    EmitExecutesNothing(env, c1, id, Running);
    if IsSynthetic(id) {
      EmitExecutesNothing(env, c2, id, Succeeded(EvidenceRef(id)));
    } else {
      Snoc(c2.log, Execute(id));
      var executed := Perform(c2, Execute(id));
      Snoc(executed.log, ApplyChangeSet(id));
      EmitExecutesNothing(env, Perform(executed, ApplyChangeSet(id)), id, Succeeded(EvidenceRef(id)));
    }
  }

  lemma {:induction false} AllSucceed(env: Env, c: Cursor, ids: seq<string>, turn: nat, id: string)
    requires !IsSynthetic(id) && forall k :: env.turn(k) == SUCCESS
    ensures Executed(RunTasks(env, c, ids, turn).cursor.log)[id] == Executed(c.log)[id] + multiset(ids)[id]
    decreases ids
  {
    if ids != [] {
      var next := RunTask(env, c, ids[0], SUCCESS).cursor;
      assert Executed(next.log)[id] == Executed(c.log)[id] + (if ids[0] == id then 1 else 0) by {
        SuccessExecutes(env, c, ids[0]);
      }
      AllSucceed(env, next, ids[1..], turn + 1, id);
      CountFirst(ids, id);
    }
  }

  /** On any plan, a single session in which every task succeeds runs the adapter once per
      occurrence of a non-synthetic id. */
  lemma OncePerOccurrence(env: Env, id: string)
    requires !IsSynthetic(id) && forall k :: env.turn(k) == SUCCESS
    ensures Executed(Session(env, []).cursor.log)[id] == multiset(Ids(env.tasks))[id]
  {
    var c := Opening(env, []);
    AtMostOneOrphan(env, []);
    assert c.log == [] && c.journal == [];
    NothingFinished(Ids(env.tasks));
    AllSucceed(env, c, Ids(env.tasks), 0, id);
  }

  /** Every session of the history runs the plan `tasks`. */
  ghost predicate AllRun(boots: seq<Boot>, tasks: seq<Task>) {
    forall i :: 0 <= i < |boots| ==> boots[i].env.tasks == tasks
  }

  /** An uninterrupted session over an empty directory in which every task succeeds. */
  function Flawless(tasks: seq<Task>): Boot {
    var env := Env("run", tasks, 20, "", _ => "", _ => SUCCESS);
    Boot(env, |Session(env, []).cursor.log|)
  }

  lemma FlawlessLifetime(tasks: seq<Task>)
    ensures Lifetime([Flawless(tasks)]) == Session(Flawless(tasks).env, []).cursor.log
  {
    var b := Flawless(tasks);
    assert [b][..0] == [] && Lifetime([]) == [];
    assert Survives(b, []) == Session(b.env, []).cursor.log;
  }

  /** For a plan, every history over it, with crashes at any step, runs a task at most once
      exactly when the task is synthetic or the plan does not name it twice. */
  lemma AtMostOnceIff(tasks: seq<Task>, id: string)
    ensures (forall boots | AllRun(boots, tasks) :: Executed(Lifetime(boots))[id] <= 1)
            <==> IsSynthetic(id) || multiset(Ids(tasks))[id] <= 1
  {
    if IsSynthetic(id) || multiset(Ids(tasks))[id] <= 1 {
      forall boots | AllRun(boots, tasks) ensures Executed(Lifetime(boots))[id] <= 1 {
        if IsSynthetic(id) { SyntheticNeverRuns(boots, id); } else { AtMostOnceEver(boots, id); }
      }
    } else {
      FlawlessLifetime(tasks);
      OncePerOccurrence(Flawless(tasks).env, id);
      assert AllRun([Flawless(tasks)], tasks);
    }
  }
}
