/** Safety of the executor over every history of sessions, each cut short by a crash at any step or run to its end. */
module CrashSafety {
  import opened Prelude
  import opened Plan
  import opened Journal
  import opened ExecutionLog
  import opened RealExecution

  // ---------- one session obeys the discipline ----------

  /** The session so far extends `h` legally, and its variables mirror the durable state. */
  ghost predicate Ready(h: seq<Op>, c: Cursor) {
    WellFormed(h + c.log) && JournalOf(h + c.log) == c.journal && c.seqNo == |c.journal| + 1
  }

  /** A task that may be started: never mentioned, or left pending. */
  predicate Startable(j: seq<Event>, id: string) {
    StatusIn(j, id) == None || StatusIn(j, id) == Some(IsPending)
  }

  ghost predicate AllStartable(j: seq<Event>, ids: seq<string>) {
    forall i :: 0 <= i < |ids| ==> Startable(j, ids[i])
  }

  lemma PerformReady(h: seq<Op>, c: Cursor, op: Op)
    requires Ready(h, c) && LegalOp(h + c.log, op) && !op.Append?
    ensures Ready(h, Perform(c, op))
  {
    assert h + (c.log + [op]) == (h + c.log) + [op];
    Snoc(h + c.log, op);
  }

  lemma PushReady(env: Env, h: seq<Op>, c: Cursor, id: string, step: Transition)
    requires Ready(h, c) && LegalEvent(c.journal, NewEvent(env, c.seqNo, id, step))
    ensures Ready(h, Pushed(env, c, id, step))
    ensures step.Running? ==> JustRunning(h + Pushed(env, c, id, step).log, id)
  {
    var op := Append(NewEvent(env, c.seqNo, id, step));
    assert h + (c.log + [op]) == (h + c.log) + [op];
    Snoc(h + c.log, op);
  }

  lemma EmitReady(env: Env, h: seq<Op>, c: Cursor, id: string, step: Transition)
    requires Ready(h, c) && LegalEvent(c.journal, NewEvent(env, c.seqNo, id, step))
    ensures var c' := Emit(env, c, id, step);
      && Ready(h, c')
      && c'.journal == c.journal + [NewEvent(env, c.seqNo, id, step)]
      && (step.Running? ==> JustRunning(h + c'.log, id))
  {
    PushReady(env, h, c, id, step);
    var p := Pushed(env, c, id, step);
    if p.since >= env.snapshotEvery || step.Terminal() {
      var op := WriteSnapshot(Reduce(p.journal));
      PerformReady(h, p, op);
      assert h + (p.log + [op]) == (h + p.log) + [op];
      Snoc(h + p.log, op);
    }
  }

  /** What one turn does to the journal: its own task moves, every other record stays. */
  ghost predicate OnlyTouches(j: seq<Event>, j': seq<Event>, id: string) {
    forall other :: other != id ==> RecordIn(j', other) == RecordIn(j, other)
  }

  lemma EmitTouches(j: seq<Event>, e: Event)
    ensures OnlyTouches(j, j + [e], e.taskId) && StatusIn(j + [e], e.taskId) == Some(StatusOf(e.step))
    ensures Idle(j + [e]) <==> !e.step.Running?
  {
  }

  lemma FinishReady(env: Env, h: seq<Op>, c: Cursor, id: string, t: Turn)
    requires Ready(h, c) && JustRunning(h + c.log, id)
    requires c.journal != [] && c.journal[|c.journal| - 1].taskId == id && StatusIn(c.journal, id) == Some(IsRunning)
    ensures var r := Finish(env, c, id, t);
      && Ready(h, r.cursor) && Idle(r.cursor.journal) && OnlyTouches(c.journal, r.cursor.journal, id)
      && StatusIn(r.cursor.journal, id) == Some(StatusOf(Conclusion(t, EvidenceRef(id))))
  {
    PerformReady(h, c, Execute(id));
    var executed := Perform(c, Execute(id));
    if Applies(t) {
      assert h + executed.log == (h + c.log) + [Execute(id)];
      PerformReady(h, executed, ApplyChangeSet(id));
    }
    var done := if Applies(t) then Perform(executed, ApplyChangeSet(id)) else executed;
    EmitReady(env, h, done, id, Conclusion(t, EvidenceRef(id)));
    EmitTouches(c.journal, NewEvent(env, done.seqNo, id, Conclusion(t, EvidenceRef(id))));
  }

  /** How a task's turn concludes. */
  function Verdict(id: string, t: Turn): Transition {
    if t.abortBefore.Some? then Cancelled(t.abortBefore.value, None)
    else if IsSynthetic(id) then Succeeded(EvidenceRef(id))
    else Conclusion(t, EvidenceRef(id))
  }

  lemma RunTaskReady(env: Env, h: seq<Op>, c: Cursor, id: string, t: Turn)
    requires Ready(h, c) && Idle(c.journal) && Startable(c.journal, id)
    ensures var r := RunTask(env, c, id, t);
      && Ready(h, r.cursor) && Idle(r.cursor.journal) && OnlyTouches(c.journal, r.cursor.journal, id)
      && StatusIn(r.cursor.journal, id) == Some(StatusOf(Verdict(id, t)))
  {
    if t.abortBefore.Some? {
      var step := Cancelled(t.abortBefore.value, None);
      EmitReady(env, h, c, id, step);
      EmitTouches(c.journal, NewEvent(env, c.seqNo, id, step));
    } else {
      EmitReady(env, h, c, id, Pending);
      EmitTouches(c.journal, NewEvent(env, c.seqNo, id, Pending));
      var c1 := Emit(env, c, id, Pending);
      EmitReady(env, h, c1, id, Running);
      EmitTouches(c1.journal, NewEvent(env, c1.seqNo, id, Running));
      var c2 := Emit(env, c1, id, Running);
      if IsSynthetic(id) {
        EmitReady(env, h, c2, id, Succeeded(EvidenceRef(id)));
        EmitTouches(c2.journal, NewEvent(env, c2.seqNo, id, Succeeded(EvidenceRef(id))));
      } else {
        FinishReady(env, h, c2, id, t);
      }
    }
  }

  lemma {:induction false} RunTasksReady(env: Env, h: seq<Op>, c: Cursor, ids: seq<string>, turn: nat)
    requires Ready(h, c) && Idle(c.journal) && Distinct(ids) && AllStartable(c.journal, ids)
    ensures Ready(h, RunTasks(env, c, ids, turn).cursor)
    decreases ids
  {
    if ids != [] {
      RunTaskReady(env, h, c, ids[0], env.turn(turn));
      var r := RunTask(env, c, ids[0], env.turn(turn));
      if r.stop.None? {
        RunTasksReady(env, h, r.cursor, ids[1..], turn + 1);
      }
    }
  }

  lemma {:induction false} RemainingFacts(ids: seq<string>, j: seq<Event>)
    requires Distinct(ids)
    ensures var r := Remaining(ids, j);
      && Distinct(r)
      && forall id :: id in r <==> id in ids && !Finished(j, id)
  {
    if ids != [] {
      var n := |ids| - 1;
      RemainingFacts(ids[..n], j);
      assert ids == ids[..n] + [ids[n]];
    }
  }

  lemma {:induction false} NothingFinished(ids: seq<string>)
    ensures Remaining(ids, []) == ids
  {
    if ids != [] {
      NothingFinished(ids[..|ids| - 1]);
      assert ids == ids[..|ids| - 1] + [ids[|ids| - 1]];
    }
  }

  lemma RemainingStartable(ids: seq<string>, j: seq<Event>)
    requires Distinct(ids) && forall id :: !IsOrphan(j, id)
    ensures Distinct(Remaining(ids, j)) && AllStartable(j, Remaining(ids, j))
  {
    var r := Remaining(ids, j);
    RemainingFacts(ids, j);
    forall i | 0 <= i < |r| ensures Startable(j, r[i]) {
      assert r[i] in r && !IsOrphan(j, r[i]);
    }
  }

  /** At most one task can have been running when a session was cut, so a restart closes at most one. */
  lemma AtMostOneOrphan(env: Env, j: seq<Event>)
    requires WellFormedJournal(j)
    ensures var r := Orphans(env, j);
      && |r| == (if Idle(j) then 0 else 1)
      && (!Idle(j) ==> r[0].taskId == j[|j| - 1].taskId && LegalEvent(j, r[0]) && r[0].step.Failed?)
  {
    var r := Orphans(env, j);
    ReplayExact(j, env.runId, env.replayedAt, NextSeq(j));
    if |r| > 1 { assert r[0].taskId != r[1].taskId; }
    SequenceNumbers(j);
    forall i | 0 <= i < |r| ensures !Idle(j) && r[i].taskId == j[|j| - 1].taskId {
      RunningIsLast(j, r[i].taskId);
    }
    if |r| > 0 { assert r[0].taskId == j[|j| - 1].taskId; }
    if !Idle(j) {
      var id := j[|j| - 1].taskId;
      RunningIsLast(j, id);
      var i :| 0 <= i < |r| && r[i].taskId == id;
      assert StatusIn(j, id) == Some(IsRunning);
    }
  }

  lemma OpeningReady(env: Env, h: seq<Op>)
    requires WellFormed(h)
    ensures var c := Opening(env, JournalOf(h));
      && Ready(h, c) && Idle(c.journal) && forall id :: !IsOrphan(c.journal, id)
  {
    var j := JournalOf(h);
    JournalWellFormed(h);
    AtMostOneOrphan(env, j);
    var r := Orphans(env, j);
    AppendsReady(h, r);
    JournalWellFormed(h + Appends(r));
    SequenceNumbers(j + r);
    forall id ensures !IsOrphan(j + r, id) { ReplaySettles(j, env.runId, env.replayedAt, NextSeq(j), id); }
  }

  lemma AppendsReady(h: seq<Op>, r: seq<Event>)
    requires WellFormed(h) && |r| <= 1 && (r != [] ==> LegalEvent(JournalOf(h), r[0]))
    ensures WellFormed(h + Appends(r)) && JournalOf(h + Appends(r)) == JournalOf(h) + r
  {
    if r == [] {
      assert h + Appends(r) == h && JournalOf(h) + r == JournalOf(h);
    } else {
      assert Appends(r) == [Append(r[0])] && r == [r[0]];
      Snoc(h, Append(r[0]));
    }
  }

  /** A whole session over a plan without repeated ids keeps the discipline. */
  lemma SessionReady(env: Env, h: seq<Op>)
    requires WellFormed(h) && Distinct(Ids(env.tasks))
    ensures Ready(h, Session(env, JournalOf(h)).cursor)
  {
    var c := Opening(env, JournalOf(h));
    OpeningReady(env, h);
    RemainingStartable(Ids(env.tasks), c.journal);
    RunTasksReady(env, h, c, Remaining(Ids(env.tasks), c.journal), 0);
  }

  // ---------- every history of crashes and restarts ----------

  /** A session of which only the first `cut` durable operations happened. */
  datatype Boot = Boot(env: Env, cut: nat)

  function Survives(b: Boot, j: seq<Event>): seq<Op> {
    var log := Session(b.env, j).cursor.log;
    if b.cut < |log| then log[..b.cut] else log
  }

  function Lifetime(boots: seq<Boot>): seq<Op> {
    if boots == [] then []
    else
      var before := Lifetime(boots[..|boots| - 1]);
      before + Survives(boots[|boots| - 1], JournalOf(before))
  }

  ghost predicate UniqueIds(boots: seq<Boot>) {
    forall i :: 0 <= i < |boots| ==> Distinct(Ids(boots[i].env.tasks))
  }

  lemma CutWellFormed(h: seq<Op>, log: seq<Op>, k: nat)
    requires WellFormed(h + log) && k <= |log|
    ensures WellFormed(h + log[..k])
  {
    WellFormedPrefix(h + log, |h| + k);
    assert (h + log)[..|h| + k] == h + log[..k];
  }

  /** Whatever is cut off, every history is well formed. */
  lemma {:induction false} LifetimeWellFormed(boots: seq<Boot>)
    requires UniqueIds(boots)
    ensures WellFormed(Lifetime(boots))
  {
    if boots != [] {
      var n := |boots| - 1;
      LifetimeWellFormed(boots[..n]);
      var before, b := Lifetime(boots[..n]), boots[n];
      SessionReady(b.env, before);
      var log := Session(b.env, JournalOf(before)).cursor.log;
      CutWellFormed(before, log, if b.cut < |log| then b.cut else |log|);
      assert log[..|log|] == log;
    }
  }

  /** Every reachable journal: numbered 1..n, at most one task running and only as the last
      event, terminal tasks without further events. */
  lemma JournalsReachable(boots: seq<Boot>)
    requires UniqueIds(boots)
    ensures var j := JournalOf(Lifetime(boots));
      && WellFormedJournal(j)
      && (forall i :: 0 <= i < |j| ==> j[i].seqNo == i + 1)
      && (forall id :: IsOrphan(j, id) ==> j != [] && j[|j| - 1].taskId == id && j[|j| - 1].step.Running?)
      && (forall i, k :: 0 <= i < k < |j| && j[i].taskId == j[k].taskId ==> !j[i].step.Terminal())
  {
    var j := JournalOf(Lifetime(boots));
    LifetimeWellFormed(boots);
    JournalWellFormed(Lifetime(boots));
    SequenceNumbers(j);
    forall id | IsOrphan(j, id) ensures j != [] && j[|j| - 1].taskId == id && j[|j| - 1].step.Running? {
      RunningIsLast(j, id);
    }
    forall i, k | 0 <= i < k < |j| && j[i].taskId == j[k].taskId ensures !j[i].step.Terminal() {
      if j[i].step.Terminal() { TerminalAbsorbs(j, i); }
    }
  }

  // ---------- how far the snapshot may lag ----------

  ghost predicate SmallLag(h: seq<Op>) {
    |Unsnapshotted(h)| <= 2 && forall e | e in Unsnapshotted(h) :: !e.step.Terminal()
  }

  /** At every point of the log except between an append and the snapshot it triggers. */
  ghost predicate LagBounded(log: seq<Op>) {
    forall k :: 0 <= k < |log| && !log[k].WriteSnapshot? ==> SmallLag(log[..k])
  }

  ghost predicate Lags(c: Cursor, n: nat) {
    LagBounded(c.log) && SmallLag(c.log) && |Unsnapshotted(c.log)| <= n && |Unsnapshotted(c.log)| == c.since
  }

  lemma LogGrows(log: seq<Op>, op: Op)
    requires LagBounded(log) && (op.WriteSnapshot? || SmallLag(log))
    ensures LagBounded(log + [op])
    ensures Unsnapshotted(log + [op]) ==
      if op.WriteSnapshot? then [] else if op.Append? then Unsnapshotted(log) + [op.event] else Unsnapshotted(log)
  {
    Snoc(log, op);
    forall k | 0 <= k < |log + [op]| && !(log + [op])[k].WriteSnapshot? ensures SmallLag((log + [op])[..k]) {
      assert (log + [op])[..k] == log[..k];
      assert log[..|log|] == log;
    }
  }

  lemma EmitLags(env: Env, c: Cursor, id: string, step: Transition, n: nat)
    requires n <= 2 && Lags(c, n) && (step.Terminal() || n < 2)
    ensures Lags(Emit(env, c, id, step), if step.Terminal() then 0 else n + 1)
  {
    var p := Pushed(env, c, id, step);
    LogGrows(c.log, Append(NewEvent(env, c.seqNo, id, step)));
    if p.since >= env.snapshotEvery || step.Terminal() {
      LogGrows(p.log, WriteSnapshot(Reduce(p.journal)));
    }
  }

  lemma CallLags(c: Cursor, op: Op, n: nat)
    requires Lags(c, n) && (op.Execute? || op.ApplyChangeSet?)
    ensures Lags(Perform(c, op), n)
  {
    LogGrows(c.log, op);
  }

  lemma FinishLags(env: Env, c: Cursor, id: string, t: Turn)
    requires Lags(c, 2)
    ensures Lags(Finish(env, c, id, t).cursor, 0)
  {
    CallLags(c, Execute(id), 2);
    var executed := Perform(c, Execute(id));
    if Applies(t) { CallLags(executed, ApplyChangeSet(id), 2); }
    var done := if Applies(t) then Perform(executed, ApplyChangeSet(id)) else executed;
    EmitLags(env, done, id, Conclusion(t, EvidenceRef(id)), 2);
  }

  lemma RunTaskLags(env: Env, c: Cursor, id: string, t: Turn)
    requires Lags(c, 0)
    ensures Lags(RunTask(env, c, id, t).cursor, 0)
  {
    if t.abortBefore.Some? {
      EmitLags(env, c, id, Cancelled(t.abortBefore.value, None), 0);
    } else {
      EmitLags(env, c, id, Pending, 0);
      var c1 := Emit(env, c, id, Pending);
      EmitLags(env, c1, id, Running, 1);
      var c2 := Emit(env, c1, id, Running);
      if IsSynthetic(id) {
        EmitLags(env, c2, id, Succeeded(EvidenceRef(id)), 2);
      } else {
        FinishLags(env, c2, id, t);
      }
    }
  }

  lemma {:induction false} RunTasksLag(env: Env, c: Cursor, ids: seq<string>, turn: nat)
    requires Lags(c, 0)
    ensures Lags(RunTasks(env, c, ids, turn).cursor, 0)
    decreases ids
  {
    if ids != [] {
      RunTaskLags(env, c, ids[0], env.turn(turn));
      var r := RunTask(env, c, ids[0], env.turn(turn));
      if r.stop.None? { RunTasksLag(env, r.cursor, ids[1..], turn + 1); }
    }
  }

  /** Within one session from an empty journal, whenever no snapshot is due, the snapshot
      lags the journal by at most two events, none of them terminal; at the end it lags by none. */
  lemma SnapshotLag(env: Env)
    ensures LagBounded(Session(env, []).cursor.log)
    ensures Unsnapshotted(Session(env, []).cursor.log) == []
  {
    var c := Opening(env, []);
    AtMostOneOrphan(env, []);
    assert c.log == [];
    RunTasksLag(env, c, Remaining(Ids(env.tasks), c.journal), 0);
  }
}
