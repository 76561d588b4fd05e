/** Numbering and snapshots over every history of sessions, whatever the plans: what holds of
    the files themselves, and when a session leaves its snapshot behind the journal. */
module Bookkeeping {
  import opened Prelude
  import opened Plan
  import opened Journal
  import opened ExecutionLog
  import opened RealExecution
  import opened CrashSafety

  // ---------- one session keeps its records ----------

  ghost predicate Books(h: seq<Op>, c: Cursor) {
    Kept(h + c.log) && JournalOf(h + c.log) == c.journal && c.seqNo == |c.journal| + 1
  }

  lemma PerformBooks(h: seq<Op>, c: Cursor, op: Op)
    requires Books(h, c) && KeepsRecord(h + c.log, op) && !op.Append?
    ensures Books(h, Perform(c, op))
  {
    assert h + (c.log + [op]) == (h + c.log) + [op];
    Snoc(h + c.log, op);
  }

  lemma PushBooks(env: Env, h: seq<Op>, c: Cursor, id: string, step: Transition)
    requires Books(h, c)
    ensures Books(h, Pushed(env, c, id, step))
  {
    var op := Append(NewEvent(env, c.seqNo, id, step));
    assert h + (c.log + [op]) == (h + c.log) + [op];
    Snoc(h + c.log, op);
  }

  lemma EmitBooks(env: Env, h: seq<Op>, c: Cursor, id: string, step: Transition)
    requires Books(h, c)
    ensures Books(h, Emit(env, c, id, step))
  {
    PushBooks(env, h, c, id, step);
    var p := Pushed(env, c, id, step);
    if p.since >= env.snapshotEvery || step.Terminal() {
      PerformBooks(h, p, WriteSnapshot(Reduce(p.journal)));
    }
  }

  lemma RunTaskBooks(env: Env, h: seq<Op>, c: Cursor, id: string, t: Turn)
    requires Books(h, c)
    ensures Books(h, RunTask(env, c, id, t).cursor)
  {
    if t.abortBefore.Some? {
      EmitBooks(env, h, c, id, Cancelled(t.abortBefore.value, None));
    } else {
      var c1 := Emit(env, c, id, Pending);
      EmitBooks(env, h, c, id, Pending);
      EmitBooks(env, h, c1, id, Running);
      var c2 := Emit(env, c1, id, Running);
      if IsSynthetic(id) {
        EmitBooks(env, h, c2, id, Succeeded(EvidenceRef(id)));
      } else {
        FinishBooks(env, h, c2, id, t);
      }
    }
  }

  lemma FinishBooks(env: Env, h: seq<Op>, c: Cursor, id: string, t: Turn)
    requires Books(h, c)
    ensures Books(h, Finish(env, c, id, t).cursor)
  {
    PerformBooks(h, c, Execute(id));
    var executed := Perform(c, Execute(id));
    if Applies(t) { PerformBooks(h, executed, ApplyChangeSet(id)); }
    var done := if Applies(t) then Perform(executed, ApplyChangeSet(id)) else executed;
    EmitBooks(env, h, done, id, Conclusion(t, EvidenceRef(id)));
  }

  lemma {:induction false} RunTasksBooks(env: Env, h: seq<Op>, c: Cursor, ids: seq<string>, turn: nat)
    requires Books(h, c)
    ensures Books(h, RunTasks(env, c, ids, turn).cursor)
    decreases ids
  {
    if ids != [] {
      RunTaskBooks(env, h, c, ids[0], env.turn(turn));
      var r := RunTask(env, c, ids[0], env.turn(turn));
      if r.stop.None? { RunTasksBooks(env, h, r.cursor, ids[1..], turn + 1); }
    }
  }

  lemma AppendBooks(h: seq<Op>, e: Event)
    requires Kept(h) && e.seqNo == |JournalOf(h)| + 1
    ensures Kept(h + [Append(e)]) && JournalOf(h + [Append(e)]) == JournalOf(h) + [e]
  {
    Snoc(h, Append(e));
  }

  ghost predicate NumberedFrom(r: seq<Event>, next: nat) { forall i :: 0 <= i < |r| ==> r[i].seqNo == next + i }

  /** The first `k` of some events, appended to a history, are in its records. */
  ghost predicate Appended(h: seq<Op>, r: seq<Event>, k: nat)
    requires k <= |r|
  {
    Kept(h + Appends(r[..k])) && JournalOf(h + Appends(r[..k])) == JournalOf(h) + r[..k]
  }

  lemma AppendedOneMore(h: seq<Op>, r: seq<Event>, k: nat)
    requires k < |r| && Appended(h, r, k) && r[k].seqNo == |JournalOf(h)| + 1 + k
    ensures Appended(h, r, k + 1)
  {
    AppendBooks(h + Appends(r[..k]), r[k]);
    AppendsOneMore(r, k);
    Regrouped(h, Appends(r[..k]), [Append(r[k])]);
    Regrouped(JournalOf(h), r[..k], [r[k]]);
  }

  lemma {:induction false} AppendsBooks(h: seq<Op>, r: seq<Event>, k: nat)
    requires Kept(h) && NumberedFrom(r, |JournalOf(h)| + 1) && k <= |r|
    ensures Appended(h, r, k)
  {
    if k == 0 {
      assert h + Appends(r[..0]) == h && JournalOf(h) + r[..0] == JournalOf(h);
    } else {
      AppendsBooks(h, r, k - 1);
      AppendedOneMore(h, r, k - 1);
    }
  }

  lemma Regrouped<T>(a: seq<T>, b: seq<T>, c: seq<T>)
    ensures a + (b + c) == (a + b) + c
  {
  }

  lemma AppendsSnoc(h: seq<Op>, r: seq<Event>)
    requires r != []
    ensures h + Appends(r) == (h + Appends(r[..|r| - 1])) + [Append(r[|r| - 1])]
  {
  }

  lemma OpeningBooks(env: Env, h: seq<Op>)
    requires Kept(h)
    ensures Books(h, Opening(env, JournalOf(h)))
  {
    var j := JournalOf(h);
    var r := Orphans(env, j);
    KeptNumbers(h);
    ReplayExact(j, env.runId, env.replayedAt, NextSeq(j));
    AppendsBooks(h, r, |r|);
    assert r[..|r|] == r;
    KeptNumbers(h + Appends(r));
  }

  /** A whole session, over any plan, keeps the records. */
  lemma SessionBooks(env: Env, h: seq<Op>)
    requires Kept(h)
    ensures Books(h, Session(env, JournalOf(h)).cursor)
  {
    var c := Opening(env, JournalOf(h));
    OpeningBooks(env, h);
    RunTasksBooks(env, h, c, Remaining(Ids(env.tasks), c.journal), 0);
  }

  // ---------- every history ----------

  lemma CutKept(h: seq<Op>, log: seq<Op>, cut: nat)
    requires Kept(h + log)
    ensures Kept(h + if cut < |log| then log[..cut] else log)
  {
    if cut < |log| {
      KeptPrefix(h + log, |h| + cut);
      CutWithin(h, log, cut);
    }
  }

  lemma CutWithin(h: seq<Op>, log: seq<Op>, cut: nat)
    requires cut <= |log|
    ensures (h + log)[..|h| + cut] == h + log[..cut]
  {
  }

  lemma {:induction false} LifetimeKept(boots: seq<Boot>)
    ensures Kept(Lifetime(boots))
  {
    if boots != [] {
      var n := |boots| - 1;
      LifetimeKept(boots[..n]);
      var before := Lifetime(boots[..n]);
      SessionBooks(boots[n].env, before);
      CutKept(before, Session(boots[n].env, JournalOf(before)).cursor.log, boots[n].cut);
    }
  }

  /** Every reachable journal is numbered 1..n across all resumes. */
  lemma NumberingReachable(boots: seq<Boot>)
    ensures Numbered(JournalOf(Lifetime(boots)))
  {
    LifetimeKept(boots);
    KeptNumbers(Lifetime(boots));
  }

  /** The snapshot, if one was written, against the journal. */
  ghost predicate SnapshotFits(h: seq<Op>) {
    var j := JournalOf(h);
    match SnapshotOf(h)
    case None => true
    case Some(s) =>
      && s.lastEventSeq <= |j|
      && s == Reduce(j[..s.lastEventSeq])
      && FoldOnto(s, j[s.lastEventSeq..]) == Reduce(j)
  }

  /** In every reachable state the snapshot file is the reduction of the journal up to its
      own sequence number, and folding the rest onto it gives the whole reduction. */
  lemma SnapshotsReachable(boots: seq<Boot>)
    ensures SnapshotFits(Lifetime(boots))
  {
    LifetimeKept(boots);
    if SnapshotOf(Lifetime(boots)).Some? { SnapshotConsistent(Lifetime(boots)); }
  }

  /** What the snapshot lags by: the events numbered above its `lastEventSeq`. */
  lemma {:induction false} UnsnapshottedIsTail(h: seq<Op>)
    requires Kept(h)
    ensures var j := JournalOf(h);
      var n := if SnapshotOf(h).Some? then SnapshotOf(h).value.lastEventSeq else 0;
      n <= |j| && Unsnapshotted(h) == j[n..]
  {
    if h != [] {
      var k := |h| - 1;
      UnsnapshottedIsTail(h[..k]);
      if h[k].WriteSnapshot? { KeptNumbers(h[..k]); }
    }
  }

  // ---------- when a session leaves its snapshot level ----------

  predicate EndsWithSnapshot(log: seq<Op>) { log != [] && log[|log| - 1].WriteSnapshot? }

  lemma EmitEnds(env: Env, c: Cursor, id: string, step: Transition)
    requires step.Terminal()
    ensures EndsWithSnapshot(Emit(env, c, id, step).log)
  {
  }

  /** A turn ends with a terminal event, and so with a snapshot. */
  lemma RunTaskEnds(env: Env, c: Cursor, id: string, t: Turn)
    ensures EndsWithSnapshot(RunTask(env, c, id, t).cursor.log)
  {
    if t.abortBefore.Some? {
      EmitEnds(env, c, id, Cancelled(t.abortBefore.value, None));
    } else {
      var running := Emit(env, Emit(env, c, id, Pending), id, Running);
      if IsSynthetic(id) {
        EmitEnds(env, running, id, Succeeded(EvidenceRef(id)));
      } else {
        var executed := Perform(running, Execute(id));
        var done := if Applies(t) then Perform(executed, ApplyChangeSet(id)) else executed;
        EmitEnds(env, done, id, Conclusion(t, EvidenceRef(id)));
      }
    }
  }

  lemma {:induction false} RunTasksEnd(env: Env, c: Cursor, ids: seq<string>, turn: nat)
    requires ids != []
    ensures EndsWithSnapshot(RunTasks(env, c, ids, turn).cursor.log)
    decreases ids
  {
    RunTaskEnds(env, c, ids[0], env.turn(turn));
    var r := RunTask(env, c, ids[0], env.turn(turn));
    if r.stop.None? && |ids| > 1 { RunTasksEnd(env, r.cursor, ids[1..], turn + 1); }
  }

  lemma EndsLevel(h: seq<Op>, log: seq<Op>)
    requires EndsWithSnapshot(log)
    ensures Unsnapshotted(h + log) == []
  {
    assert (h + log)[|h + log| - 1] == log[|log| - 1];
  }

  lemma {:induction false} AppendsUnsnapshotted(h: seq<Op>, r: seq<Event>)
    ensures Unsnapshotted(h + Appends(r)) == Unsnapshotted(h) + r
  {
    if r == [] {
      assert h + Appends(r) == h;
    } else {
      var n := |r| - 1;
      AppendsUnsnapshotted(h, r[..n]);
      AppendsSnoc(h, r);
      Snoc(h + Appends(r[..n]), Append(r[n]));
    }
  }

  /** A session over any history ends with its snapshot level exactly when a task was left to
      run, or nothing was appended and the snapshot was level before. Closing an orphan
      without anything left to run leaves the snapshot behind. */
  lemma SnapshotLevelIff(env: Env, h: seq<Op>)
    ensures var j := JournalOf(h);
      Unsnapshotted(h + Session(env, j).cursor.log) == [] <==>
        || Remaining(Ids(env.tasks), Opening(env, j).journal) != []
        || (Orphans(env, j) == [] && Unsnapshotted(h) == [])
  {
    var j := JournalOf(h);
    var c := Opening(env, j);
    var ids := Remaining(Ids(env.tasks), c.journal);
    if ids != [] {
      RunTasksEnd(env, c, ids, 0);
      EndsLevel(h, Session(env, j).cursor.log);
    } else {
      AppendsUnsnapshotted(h, Orphans(env, j));
    }
  }

  // ---------- a stale snapshot reached ----------

  lemma RunTaskExtends(env: Env, c: Cursor, id: string, t: Turn)
    requires t.abortBefore.None? && !IsSynthetic(id)
    ensures Emit(env, Emit(env, c, id, Pending), id, Running).log <= RunTask(env, c, id, t).cursor.log
  {
  }

  /** How a session over an empty directory with a single task begins. */
  lemma FirstTwoSteps(env: Env, id: string)
    requires Ids(env.tasks) == [id] && !IsSynthetic(id) && env.turn(0).abortBefore.None? && env.snapshotEvery > 2
    ensures |Session(env, []).cursor.log| > 2
    ensures Session(env, []).cursor.log[..2] ==
      [Append(NewEvent(env, 1, id, Pending)), Append(NewEvent(env, 2, id, Running))]
  {
    var c := Cursor([], [], 1, 0, []);
    var log := RunTask(env, c, id, env.turn(0)).cursor.log;
    assert Opening(env, []) == c by { AtMostOneOrphan(env, []); }
    assert Remaining([id], []) == [id] by { NothingFinished([id]); }
    RunOnlyTask(env, c, id);
    FirstTwoEmits(env, c, id);
    RunTaskExtends(env, c, id, env.turn(0));
    RunTaskEnds(env, c, id, env.turn(0));
    assert log[1].Append?;
  }

  lemma RunOnlyTask(env: Env, c: Cursor, id: string)
    ensures RunTasks(env, c, [id], 0).cursor == RunTask(env, c, id, env.turn(0)).cursor
  {
    var next := RunTask(env, c, id, env.turn(0)).cursor;
    assert [id][1..] == [] && RunTasks(env, next, [], 1) == RunResult(next, Complete);
  }

  lemma FirstTwoEmits(env: Env, c: Cursor, id: string)
    requires c == Cursor([], [], 1, 0, []) && env.snapshotEvery > 2
    ensures Emit(env, Emit(env, c, id, Pending), id, Running).log ==
      [Append(NewEvent(env, 1, id, Pending)), Append(NewEvent(env, 2, id, Running))]
  {
  }

  /** A crash right after a task was recorded as running, and the session after it. */
  lemma StaleAfterOrphan(env: Env, id: string)
    requires Ids(env.tasks) == [id] && !IsSynthetic(id) && env.turn(0).abortBefore.None? && env.snapshotEvery > 2
    ensures var h := Lifetime([Boot(env, 2)]);
      var r := Session(env, JournalOf(h));
      r.outcome == Complete && Unsnapshotted(h + r.cursor.log) != []
  {
    var h := Lifetime([Boot(env, 2)]);
    var e1, e2 := NewEvent(env, 1, id, Pending), NewEvent(env, 2, id, Running);
    FirstTwoSteps(env, id);
    assert [Boot(env, 2)][..0] == [] && Lifetime([]) == [];
    assert h == [Append(e1), Append(e2)];
    TwoAppends(e1, e2);
    LeftRunning(env, [e1, e2], id);
    SnapshotLevelIff(env, h);
  }

  lemma TwoAppends(e1: Event, e2: Event)
    ensures JournalOf([Append(e1), Append(e2)]) == [e1, e2]
  {
    assert [Append(e1), Append(e2)][..1] == [Append(e1)] && [Append(e1)][..0] == [];
    assert JournalOf([Append(e1)]) == [e1];
  }

  /** A journal whose last event left the plan's only task running. */
  lemma LeftRunning(env: Env, j: seq<Event>, id: string)
    requires Ids(env.tasks) == [id] && j != [] && j[|j| - 1].taskId == id && j[|j| - 1].step.Running?
    ensures Orphans(env, j) != [] && Remaining(Ids(env.tasks), Opening(env, j).journal) == []
    ensures Session(env, j).outcome == Complete
  {
    var n, o := |j| - 1, Opening(env, j).journal;
    assert j == j[..n] + [j[n]];
    LatestStatus(j[..n], j[n], id);
    ReplayExact(j, env.runId, env.replayedAt, NextSeq(j));
    ReplaySettles(j, env.runId, env.replayedAt, NextSeq(j), id);
    assert Finished(o, id);
    assert [id][..0] == [] && Remaining([], o) == [];
  }

  function OneTask(): Env {
    Env("run", [Task("task-a", [])], 20, "", _ => "", _ => Turn(None, Quiet, ChangeSet([])))
  }

  lemma OneTaskIds()
    ensures Ids(OneTask().tasks) == ["task-a"] && !IsSynthetic("task-a")
  {
  }

  /** A reachable stale snapshot: the resumed session reports "complete" and the snapshot file
      does not show the failure it recorded. */
  lemma StaleSnapshotReached()
    ensures var h := Lifetime([Boot(OneTask(), 2)]);
      var r := Session(OneTask(), JournalOf(h));
      r.outcome == Complete && Unsnapshotted(h + r.cursor.log) != []
  {
    OneTaskIds();
    StaleAfterOrphan(OneTask(), "task-a");
  }

  // ---------- when a session writes a snapshot ----------

  /** The events appended since the last snapshot. */
  function SinceSnapshot(log: seq<Op>): nat {
    if log == [] then 0
    else
      match log[|log| - 1]
      case WriteSnapshot(_) => 0
      case Append(_) => SinceSnapshot(log[..|log| - 1]) + 1
      case _ => SinceSnapshot(log[..|log| - 1])
  }

  /** The last step appended an event that calls for a snapshot: one that succeeds, fails, times out
      or is cancelled, or the last of as many as the session was told. */
  ghost predicate SnapshotDue(log: seq<Op>, every: int) {
    && log != [] && log[|log| - 1].Append?
    && var step := log[|log| - 1].event.step;
       step.Succeeded? || step.Failed? || step.TimedOut? || step.Cancelled? || SinceSnapshot(log) >= every
  }

  ghost predicate WrittenWhenDue(log: seq<Op>, every: int) {
    forall k :: 0 <= k < |log| ==> (log[k].WriteSnapshot? <==> SnapshotDue(log[..k], every))
  }

  /** A snapshot is written exactly where one is due. */
  ghost predicate Punctual(log: seq<Op>, every: int) { WrittenWhenDue(log, every) && !SnapshotDue(log, every) }

  /** `rest` is what the session has done since `base`. */
  ghost predicate OnTime(env: Env, base: seq<Op>, c: Cursor, rest: seq<Op>) {
    c.log == base + rest && c.since == SinceSnapshot(rest) && Punctual(rest, env.snapshotEvery)
  }

  lemma PunctualSnoc(log: seq<Op>, op: Op, every: int)
    requires WrittenWhenDue(log, every) && (op.WriteSnapshot? <==> SnapshotDue(log, every))
    ensures WrittenWhenDue(log + [op], every)
  {
    forall k | 0 <= k < |log + [op]| ensures (log + [op])[k].WriteSnapshot? <==> SnapshotDue((log + [op])[..k], every) {
      if k == |log| { assert (log + [op])[..k] == log; } else { assert (log + [op])[..k] == log[..k]; }
    }
  }

  lemma SinceSnoc(log: seq<Op>, op: Op)
    ensures SinceSnapshot(log + [op]) ==
      if op.WriteSnapshot? then 0 else if op.Append? then SinceSnapshot(log) + 1 else SinceSnapshot(log)
  {
    Snoc(log, op);
  }

  lemma PerformOnTime(env: Env, base: seq<Op>, c: Cursor, rest: seq<Op>, op: Op)
    requires OnTime(env, base, c, rest) && !op.Append? && !op.WriteSnapshot?
    ensures OnTime(env, base, Perform(c, op), rest + [op])
  {
    PunctualSnoc(rest, op, env.snapshotEvery);
    SinceSnoc(rest, op);
  }

  lemma PushOnTime(env: Env, base: seq<Op>, c: Cursor, rest: seq<Op>, id: string, step: Transition)
    requires OnTime(env, base, c, rest)
    ensures var pushed, rest' := Pushed(env, c, id, step), rest + [Append(NewEvent(env, c.seqNo, id, step))];
      && pushed.log == base + rest' && pushed.since == SinceSnapshot(rest') && WrittenWhenDue(rest', env.snapshotEvery)
      && (SnapshotDue(rest', env.snapshotEvery) <==> step.Terminal() || pushed.since >= env.snapshotEvery)
  {
    var op := Append(NewEvent(env, c.seqNo, id, step));
    PunctualSnoc(rest, op, env.snapshotEvery);
    DueAfter(rest, op.event, env.snapshotEvery);
  }

  lemma DueAfter(log: seq<Op>, e: Event, every: int)
    ensures SinceSnapshot(log + [Append(e)]) == SinceSnapshot(log) + 1
    ensures SnapshotDue(log + [Append(e)], every) <==> e.step.Terminal() || SinceSnapshot(log) + 1 >= every
  {
    SinceSnoc(log, Append(e));
  }

  lemma EmitOnTime(env: Env, base: seq<Op>, c: Cursor, rest: seq<Op>, id: string, step: Transition) returns (rest': seq<Op>)
    requires OnTime(env, base, c, rest)
    ensures OnTime(env, base, Emit(env, c, id, step), rest')
  {
    var pushed := Pushed(env, c, id, step);
    rest' := rest + [Append(NewEvent(env, c.seqNo, id, step))];
    PushOnTime(env, base, c, rest, id, step);
    if step.Terminal() || pushed.since >= env.snapshotEvery {
      var write := WriteSnapshot(Reduce(pushed.journal));
      WriteOnTime(rest', write, env.snapshotEvery);
      assert base + (rest' + [write]) == (base + rest') + [write];
      rest' := rest' + [write];
    }
  }

  lemma WriteOnTime(log: seq<Op>, write: Op, every: int)
    requires WrittenWhenDue(log, every) && SnapshotDue(log, every) && write.WriteSnapshot?
    ensures Punctual(log + [write], every) && SinceSnapshot(log + [write]) == 0
  {
    PunctualSnoc(log, write, every);
    SinceSnoc(log, write);
  }

  lemma RunTaskOnTime(env: Env, base: seq<Op>, c: Cursor, rest: seq<Op>, id: string, t: Turn) returns (rest': seq<Op>)
    requires OnTime(env, base, c, rest)
    ensures OnTime(env, base, RunTask(env, c, id, t).cursor, rest')
  {
    if t.abortBefore.Some? {
      rest' := EmitOnTime(env, base, c, rest, id, Cancelled(t.abortBefore.value, None));
    } else {
      var pending := Emit(env, c, id, Pending);
      rest' := EmitOnTime(env, base, c, rest, id, Pending);
      rest' := EmitOnTime(env, base, pending, rest', id, Running);
      var running := Emit(env, pending, id, Running);
      if IsSynthetic(id) {
        rest' := EmitOnTime(env, base, running, rest', id, Succeeded(EvidenceRef(id)));
      } else {
        rest' := FinishOnTime(env, base, running, rest', id, t);
      }
    }
  }

  lemma FinishOnTime(env: Env, base: seq<Op>, c: Cursor, rest: seq<Op>, id: string, t: Turn) returns (rest': seq<Op>)
    requires OnTime(env, base, c, rest)
    ensures OnTime(env, base, Finish(env, c, id, t).cursor, rest')
  {
    PerformOnTime(env, base, c, rest, Execute(id));
    var executed := Perform(c, Execute(id));
    rest' := rest + [Execute(id)];
    if Applies(t) {
      PerformOnTime(env, base, executed, rest', ApplyChangeSet(id));
      var done := Perform(executed, ApplyChangeSet(id));
      rest' := EmitOnTime(env, base, done, rest' + [ApplyChangeSet(id)], id, Conclusion(t, EvidenceRef(id)));
    } else {
      rest' := EmitOnTime(env, base, executed, rest', id, Conclusion(t, EvidenceRef(id)));
    }
  }

  lemma {:induction false} RunTasksOnTime(env: Env, base: seq<Op>, c: Cursor, rest: seq<Op>, ids: seq<string>, turn: nat)
    returns (rest': seq<Op>)
    requires OnTime(env, base, c, rest)
    ensures OnTime(env, base, RunTasks(env, c, ids, turn).cursor, rest')
    decreases ids
  {
    rest' := rest;
    if ids != [] {
      var r := RunTask(env, c, ids[0], env.turn(turn));
      rest' := RunTaskOnTime(env, base, c, rest, ids[0], env.turn(turn));
      if r.stop.None? { rest' := RunTasksOnTime(env, base, r.cursor, rest', ids[1..], turn + 1); }
    }
  }

  /** A session over any journal first closes orphans, without a snapshot; from then on it writes a
      snapshot exactly after each event that calls for one. */
  lemma SessionPunctual(env: Env, j: seq<Event>) returns (rest: seq<Op>)
    ensures Session(env, j).cursor.log == Appends(Replay(j, env.runId, env.replayedAt, NextSeq(j))) + rest
    ensures Punctual(rest, env.snapshotEvery)
  {
    var c := Opening(env, j);
    assert c.log + [] == c.log;
    rest := RunTasksOnTime(env, c.log, c, [], Remaining(Ids(env.tasks), c.journal), 0);
  }
}
