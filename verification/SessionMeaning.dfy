/** What a session does, in terms of its inputs alone: the events it appends, the calls it makes
    and the outcome it returns, read off the plan, the journal and the outside world's answers. */
module SessionMeaning {
  import opened Prelude
  import opened Plan
  import opened Journal
  import opened ExecutionLog
  import opened RealExecution
  import opened CrashSafety
  import opened RunReport

  // ---------- one turn ----------

  /** Ids the executor passes without running the adapter. */
  predicate Reserved(id: string) {
    id == "task-live-planning-pre-handoff-verification" || "task-live-planning-pre-handoff-verification-" <= id
  }

  function AdapterEvidence(id: string): ArtifactRef {
    ArtifactRef("execution", "adapter-evidence", "execution/task-" + id + "/evidence.json",
                "Adapter evidence for task " + id + " attempt 1.")
  }

  predicate AllApplied(t: Turn) { t.signal == Quiet && t.result.ChangeSet? && false !in t.result.applied }

  predicate SomeUnapplied(t: Turn) { t.signal == Quiet && t.result.ChangeSet? && false in t.result.applied }

  predicate AdapterSays(t: Turn, reason: string) { t.signal == Quiet && t.result == AdapterFailed(reason) }

  /** How a turn ends. */
  ghost predicate EndsAs(id: string, t: Turn, step: Transition) {
    if t.abortBefore.Some? then step == Cancelled(t.abortBefore.value, None)
    else if Reserved(id) then step == Succeeded(AdapterEvidence(id))
    else
      && step.Evidence() == Some(AdapterEvidence(id))
      && (step.Succeeded? <==> AllApplied(t))
      && (step.TimedOut? <==> t.signal == WallClock || AdapterSays(t, "timeout"))
      && (step.Cancelled? <==> t.signal.RootAborted? || AdapterSays(t, "aborted"))
      && (step.Cancelled? ==> step.cause == if t.signal.RootAborted? then t.signal.cause else Abort)
      && (step.Failed? <==> SomeUnapplied(t)
                            || (t.signal == Quiet && t.result.AdapterFailed? && t.result.reason !in ["timeout", "aborted"]))
      && (step.Failed? ==> step.retryReason == None
                           && step.reason == if t.result.ChangeSet? then "apply-failed" else t.result.reason)
  }

  /** The turn ends in success, and the next one begins. */
  predicate GoesOn(id: string, t: Turn) { t.abortBefore.None? && (Reserved(id) || AllApplied(t)) }

  /** The outcome of a session that a turn stops. */
  ghost predicate StopsWith(id: string, t: Turn, outcome: Outcome) {
    if t.abortBefore.Some? then outcome == CancelledRun
    else
      && !Reserved(id)
      && (t.signal.RootAborted? || AdapterSays(t, "aborted") ==> outcome == CancelledRun)
      && (t.signal == WallClock || AdapterSays(t, "timeout") ==> outcome == Block("task-timeout"))
      && (SomeUnapplied(t) ==> outcome == Block("apply-failure"))
      && (forall reason :: AdapterSays(t, reason) && reason !in ["timeout", "aborted"] ==> outcome == Block(reason))
  }

  function TurnEvent(env: Env, id: string, seqNo: nat, step: Transition): Event {
    Event(env.runId, id, env.clock(seqNo), 1, seqNo, step)
  }

  /** The events of a turn that ends with `step`. */
  function TurnEvents(env: Env, id: string, t: Turn, next: nat, step: Transition): seq<Event> {
    if t.abortBefore.Some? then [TurnEvent(env, id, next, step)]
    else [TurnEvent(env, id, next, Pending), TurnEvent(env, id, next + 1, Running), TurnEvent(env, id, next + 2, step)]
  }

  /** The adapter runs, and its change set, if it has one and no signal came, is applied. */
  function TurnCalls(id: string, t: Turn): seq<Op> {
    if t.abortBefore.Some? || Reserved(id) then []
    else [Execute(id)] + if t.signal == Quiet && t.result.ChangeSet? then [ApplyChangeSet(id)] else []
  }

  /** The adapter runs and applications among the steps, in order. */
  function AdapterCalls(log: seq<Op>): seq<Op> {
    if log == [] then []
    else
      var last := log[|log| - 1];
      AdapterCalls(log[..|log| - 1]) + if last.Execute? || last.ApplyChangeSet? then [last] else []
  }

  /** What an event adds to a cursor. */
  ghost predicate Emitted(c: Cursor, c': Cursor, events: seq<Event>, calls: seq<Op>) {
    && c'.emitted == c.emitted + events && c'.journal == c.journal + events
    && c'.seqNo == c.seqNo + |events| && AdapterCalls(c'.log) == AdapterCalls(c.log) + calls
  }

  lemma EmitAdds(env: Env, c: Cursor, id: string, step: Transition)
    ensures Emitted(c, Emit(env, c, id, step), [TurnEvent(env, id, c.seqNo, step)], [])
  {
    var p := Pushed(env, c, id, step);
    Snoc(c.log, Append(NewEvent(env, c.seqNo, id, step)));
    Snoc(p.log, WriteSnapshot(Reduce(p.journal)));
    assert AdapterCalls(p.log) == AdapterCalls(c.log);
  }

  lemma EmittedThen(a: Cursor, b: Cursor, c: Cursor, e1: seq<Event>, c1: seq<Op>, e2: seq<Event>, c2: seq<Op>)
    requires Emitted(a, b, e1, c1) && Emitted(b, c, e2, c2)
    ensures Emitted(a, c, e1 + e2, c1 + c2)
  {
  }

  lemma PerformAdds(c: Cursor, op: Op)
    requires op.Execute? || op.ApplyChangeSet?
    ensures Emitted(c, Perform(c, op), [], [op])
  {
    Snoc(c.log, op);
  }

  lemma ReservedIsSynthetic(id: string)
    ensures IsSynthetic(id) <==> Reserved(id)
  {
    assert SYNTHETIC + "-" == "task-live-planning-pre-handoff-verification-";
  }

  lemma ConclusionMeaning(id: string, t: Turn)
    requires t.abortBefore.None? && !Reserved(id)
    ensures EndsAs(id, t, Conclusion(t, EvidenceRef(id)))
    ensures StopAfter(t) == None <==> AllApplied(t)
    ensures StopAfter(t).Some? ==> StopsWith(id, t, StopAfter(t).value)
  {
  }

  lemma FinishMeaning(env: Env, c: Cursor, id: string, t: Turn)
    requires t.abortBefore.None? && !Reserved(id)
    ensures var r := Finish(env, c, id, t).cursor;
      Emitted(c, r, [TurnEvent(env, id, c.seqNo, Conclusion(t, EvidenceRef(id)))], TurnCalls(id, t))
  {
    var executed := Perform(c, Execute(id));
    var done := if Applies(t) then Perform(executed, ApplyChangeSet(id)) else executed;
    PerformAdds(c, Execute(id));
    if Applies(t) {
      PerformAdds(executed, ApplyChangeSet(id));
      EmittedThen(c, executed, done, [], [Execute(id)], [], [ApplyChangeSet(id)]);
    }
    assert Emitted(c, done, [], TurnCalls(id, t));
    EmitAdds(env, done, id, Conclusion(t, EvidenceRef(id)));
    var step := Conclusion(t, EvidenceRef(id));
    EmittedThen(c, done, Emit(env, done, id, step), [], TurnCalls(id, t), [TurnEvent(env, id, done.seqNo, step)], []);
    assert [] + [TurnEvent(env, id, c.seqNo, step)] == [TurnEvent(env, id, c.seqNo, step)] && TurnCalls(id, t) + [] == TurnCalls(id, t);
  }

  /** The two events a turn begins with. */
  lemma BeginMeaning(env: Env, c: Cursor, id: string)
    ensures Emitted(c, Emit(env, Emit(env, c, id, Pending), id, Running),
                    [TurnEvent(env, id, c.seqNo, Pending), TurnEvent(env, id, c.seqNo + 1, Running)], [])
  {
    var c1 := Emit(env, c, id, Pending);
    EmitAdds(env, c, id, Pending);
    EmitAdds(env, c1, id, Running);
  }

  lemma BegunThen(env: Env, c: Cursor, begun: Cursor, end: Cursor, id: string, t: Turn, step: Transition, calls: seq<Op>)
    requires t.abortBefore.None?
    requires Emitted(c, begun, [TurnEvent(env, id, c.seqNo, Pending), TurnEvent(env, id, c.seqNo + 1, Running)], [])
    requires Emitted(begun, end, [TurnEvent(env, id, c.seqNo + 2, step)], calls)
    ensures Emitted(c, end, TurnEvents(env, id, t, c.seqNo, step), calls)
  {
  }

  /** A turn, in terms of its answers: the events it appends, the calls it makes, how it ends and
      whether the session goes on. */
  lemma TurnMeaning(env: Env, c: Cursor, id: string, t: Turn) returns (step: Transition)
    ensures EndsAs(id, t, step)
    ensures Emitted(c, RunTask(env, c, id, t).cursor, TurnEvents(env, id, t, c.seqNo, step), TurnCalls(id, t))
    ensures RunTask(env, c, id, t).stop == None <==> GoesOn(id, t)
    ensures RunTask(env, c, id, t).stop.Some? ==> StopsWith(id, t, RunTask(env, c, id, t).stop.value)
  {
    ReservedIsSynthetic(id);
    if t.abortBefore.Some? {
      step := Cancelled(t.abortBefore.value, None);
      EmitAdds(env, c, id, step);
      return;
    }
    var begun := Emit(env, Emit(env, c, id, Pending), id, Running);
    BeginMeaning(env, c, id);
    if Reserved(id) {
      step := Succeeded(EvidenceRef(id));
      EmitAdds(env, begun, id, step);
    } else {
      step := Conclusion(t, EvidenceRef(id));
      ConclusionMeaning(id, t);
      FinishMeaning(env, begun, id, t);
    }
    BegunThen(env, c, begun, RunTask(env, c, id, t).cursor, id, t, step, TurnCalls(id, t));
  }

  // ---------- a session ----------

  /** From turn number `turn` on, over `ids`: the events, the calls and the outcome. */
  ghost predicate TurnsAre(env: Env, ids: seq<string>, turn: nat, next: nat, events: seq<Event>, calls: seq<Op>, outcome: Outcome)
    decreases ids
  {
    if ids == [] then events == [] && calls == [] && outcome == Complete
    else
      var id, t := ids[0], env.turn(turn);
      exists step ::
        && EndsAs(id, t, step)
        && TurnEvents(env, id, t, next, step) <= events && TurnCalls(id, t) <= calls
        && var n, m := |TurnEvents(env, id, t, next, step)|, |TurnCalls(id, t)|;
           if GoesOn(id, t) then TurnsAre(env, ids[1..], turn + 1, next + n, events[n..], calls[m..], outcome)
           else |events| == n && |calls| == m && StopsWith(id, t, outcome)
  }

  lemma TurnsGoOn(env: Env, ids: seq<string>, turn: nat, next: nat, step: Transition, more: seq<Event>, others: seq<Op>, outcome: Outcome)
    requires ids != [] && EndsAs(ids[0], env.turn(turn), step) && GoesOn(ids[0], env.turn(turn))
    requires TurnsAre(env, ids[1..], turn + 1, next + |TurnEvents(env, ids[0], env.turn(turn), next, step)|, more, others, outcome)
    ensures TurnsAre(env, ids, turn, next, TurnEvents(env, ids[0], env.turn(turn), next, step) + more,
                     TurnCalls(ids[0], env.turn(turn)) + others, outcome)
  {
    var first, own := TurnEvents(env, ids[0], env.turn(turn), next, step), TurnCalls(ids[0], env.turn(turn));
    assert (first + more)[|first|..] == more && (own + others)[|own|..] == others;
  }

  /** The turns of `ids` from cursor `c` appended `events` and made `calls`. */
  ghost predicate TurnsRun(env: Env, c: Cursor, ids: seq<string>, turn: nat, events: seq<Event>, calls: seq<Op>) {
    var r := RunTasks(env, c, ids, turn);
    Emitted(c, r.cursor, events, calls) && TurnsAre(env, ids, turn, c.seqNo, events, calls, r.outcome)
  }

  /** What is known of the first turn of `ids`. */
  ghost predicate FirstTurn(env: Env, c: Cursor, ids: seq<string>, turn: nat, step: Transition)
    requires ids != []
  {
    var id, t := ids[0], env.turn(turn);
    var r := RunTask(env, c, id, t);
    && EndsAs(id, t, step)
    && Emitted(c, r.cursor, TurnEvents(env, id, t, c.seqNo, step), TurnCalls(id, t))
    && (r.stop == None <==> GoesOn(id, t))
    && (r.stop.Some? ==> StopsWith(id, t, r.stop.value))
  }

  lemma LastTurn(env: Env, c: Cursor, ids: seq<string>, turn: nat, step: Transition)
    requires ids != [] && FirstTurn(env, c, ids, turn, step) && !GoesOn(ids[0], env.turn(turn))
    ensures TurnsRun(env, c, ids, turn, TurnEvents(env, ids[0], env.turn(turn), c.seqNo, step), TurnCalls(ids[0], env.turn(turn)))
  {
    var r := RunTask(env, c, ids[0], env.turn(turn));
    assert RunTasks(env, c, ids, turn) == RunResult(r.cursor, r.stop.value);
  }

  lemma MoreTurns(env: Env, c: Cursor, mid: Cursor, end: RunResult, ids: seq<string>, turn: nat, step: Transition,
                  more: seq<Event>, others: seq<Op>)
    requires ids != [] && EndsAs(ids[0], env.turn(turn), step) && GoesOn(ids[0], env.turn(turn))
    requires Emitted(c, mid, TurnEvents(env, ids[0], env.turn(turn), c.seqNo, step), TurnCalls(ids[0], env.turn(turn)))
    requires Emitted(mid, end.cursor, more, others) && TurnsAre(env, ids[1..], turn + 1, mid.seqNo, more, others, end.outcome)
    ensures var events, calls := TurnEvents(env, ids[0], env.turn(turn), c.seqNo, step) + more, TurnCalls(ids[0], env.turn(turn)) + others;
      Emitted(c, end.cursor, events, calls) && TurnsAre(env, ids, turn, c.seqNo, events, calls, end.outcome)
  {
    var first, own := TurnEvents(env, ids[0], env.turn(turn), c.seqNo, step), TurnCalls(ids[0], env.turn(turn));
    assert Emitted(c, end.cursor, first + more, own + others) by {
      EmittedThen(c, mid, end.cursor, first, own, more, others);
    }
    assert mid.seqNo == c.seqNo + |first|;
    TurnsGoOn(env, ids, turn, c.seqNo, step, more, others, end.outcome);
  }

  lemma TurnsContinue(env: Env, c: Cursor, ids: seq<string>, turn: nat)
    requires ids != [] && RunTask(env, c, ids[0], env.turn(turn)).stop == None
    ensures RunTasks(env, c, ids, turn) == RunTasks(env, RunTask(env, c, ids[0], env.turn(turn)).cursor, ids[1..], turn + 1)
  {
  }

  lemma {:induction false} RunTasksMeaning(env: Env, c: Cursor, ids: seq<string>, turn: nat) returns (events: seq<Event>, calls: seq<Op>)
    ensures TurnsRun(env, c, ids, turn, events, calls)
    decreases ids
  {
    if ids == [] {
      events, calls := [], [];
    } else {
      var id, t := ids[0], env.turn(turn);
      var step := TurnMeaning(env, c, id, t);
      events, calls := TurnEvents(env, id, t, c.seqNo, step), TurnCalls(id, t);
      if GoesOn(id, t) {
        var mid := RunTask(env, c, id, t).cursor;
        var more, others := RunTasksMeaning(env, mid, ids[1..], turn + 1);
        TurnsContinue(env, c, ids, turn);
        MoreTurns(env, c, mid, RunTasks(env, c, ids, turn), ids, turn, step, more, others);
        events, calls := events + more, calls + others;
      } else {
        LastTurn(env, c, ids, turn, step);
      }
    }
  }

  predicate Concluded(j: seq<Event>, id: string) {
    StatusIn(j, id) in [Some(IsSucceeded), Some(IsFailed), Some(IsTimedOut), Some(IsCancelled)]
  }

  /** The tasks a session runs, in plan order: those the journal shows neither as succeeded nor
      as failed, timed out or cancelled. */
  ghost predicate LeftToRun(ids: seq<string>, j: seq<Event>, left: seq<string>) {
    && (forall id :: id in left <==> id in ids && !Concluded(j, id))
    && (forall p, q :: 0 <= p < q < |left| ==> InThatOrder(ids, left[p], left[q]))
  }

  ghost predicate InThatOrder(ids: seq<string>, a: string, b: string) { exists i, k :: 0 <= i < k < |ids| && ids[i] == a && ids[k] == b }

  lemma FinishedMeans(j: seq<Event>, id: string)
    ensures Finished(j, id) <==> Concluded(j, id)
  {
  }

  lemma {:induction false} RemainingInOrder(ids: seq<string>, j: seq<Event>, p: nat, q: nat) returns (i: nat, k: nat)
    requires p < q < |Remaining(ids, j)|
    ensures i < k < |ids| && ids[i] == Remaining(ids, j)[p] && ids[k] == Remaining(ids, j)[q]
  {
    var n := |ids| - 1;
    var before := Remaining(ids[..n], j);
    if q < |before| {
      i, k := RemainingInOrder(ids[..n], j, p, q);
    } else {
      i := RemainingAt(ids[..n], j, p);
      k := n;
    }
  }

  lemma {:induction false} RemainingAt(ids: seq<string>, j: seq<Event>, p: nat) returns (i: nat)
    requires p < |Remaining(ids, j)|
    ensures i < |ids| && ids[i] == Remaining(ids, j)[p]
  {
    var n := |ids| - 1;
    if p < |Remaining(ids[..n], j)| { i := RemainingAt(ids[..n], j, p); } else { i := n; }
  }

  lemma {:induction false} RemainingMembers(ids: seq<string>, j: seq<Event>, id: string)
    ensures id in Remaining(ids, j) <==> id in ids && !Finished(j, id)
  {
    if ids != [] {
      var n := |ids| - 1;
      RemainingMembers(ids[..n], j, id);
      assert ids == ids[..n] + [ids[n]];
    }
  }

  lemma RemainingMeaning(ids: seq<string>, j: seq<Event>)
    ensures LeftToRun(ids, j, Remaining(ids, j))
  {
    var left := Remaining(ids, j);
    forall id ensures id in left <==> id in ids && !Concluded(j, id) {
      RemainingMembers(ids, j, id);
      FinishedMeans(j, id);
    }
    forall p, q | 0 <= p < q < |left| ensures InThatOrder(ids, left[p], left[q]) {
      var i, k := RemainingInOrder(ids, j, p, q);
    }
  }

  /** A whole session over any journal: after the orphans' failures, the journal holds exactly the
      events of the turns of the tasks left to run, and the adapter calls and the outcome are theirs. */
  lemma SessionMeaning(env: Env, j: seq<Event>) returns (left: seq<string>)
    ensures var o, r := j + Replay(j, env.runId, env.replayedAt, NextSeq(j)), Session(env, j);
      && LeftToRun(Ids(env.tasks), o, left)
      && r.cursor.journal == o + r.cursor.emitted
      && TurnsAre(env, left, 0, NextSeq(o), r.cursor.emitted, AdapterCalls(r.cursor.log), r.outcome)
  {
    var c := Opening(env, j);
    left := Remaining(Ids(env.tasks), c.journal);
    RemainingMeaning(Ids(env.tasks), c.journal);
    var events, calls := RunTasksMeaning(env, c, left, 0);
    NoCallsInAppends(Orphans(env, j));
    assert Session(env, j) == RunTasks(env, c, left, 0);
    var r := Session(env, j);
    assert r.cursor.emitted == events && AdapterCalls(r.cursor.log) == calls && r.cursor.journal == c.journal + events;
  }

  lemma {:induction false} NoCallsInAppends(events: seq<Event>)
    ensures AdapterCalls(Appends(events)) == []
  {
    if events != [] {
      var n := |events| - 1;
      NoCallsInAppends(events[..n]);
      assert Appends(events)[..n] == Appends(events[..n]);
    }
  }

  // ---------- in closed form ----------

  /** The first `m` of the tasks left to run go on, and if there is another it does not. */
  ghost predicate GoOnFor(env: Env, left: seq<string>, turn: nat, m: nat) {
    && m <= |left| && (forall k :: 0 <= k < m ==> GoesOn(left[k], env.turn(turn + k)))
    && (m < |left| ==> !GoesOn(left[m], env.turn(turn + m)))
  }

  lemma VerdictGoesOn(id: string, t: Turn)
    ensures Verdict(id, t).Succeeded? <==> GoesOn(id, t)
  {
    ReservedIsSynthetic(id);
    if t.abortBefore.None? && !Reserved(id) { ConclusionMeaning(id, t); }
  }

  lemma CompletedGoOn(env: Env, ids: seq<string>)
    ensures GoOnFor(env, ids, 0, Completed(env, ids, 0))
  {
    var m := Completed(env, ids, 0);
    forall k | 0 <= k < m ensures GoesOn(ids[k], env.turn(0 + k)) {
      CompletedAt(env, ids, 0, k);
      VerdictGoesOn(ids[k], env.turn(k));
    }
    if m < |ids| {
      CompletedAt(env, ids, 0, m);
      VerdictGoesOn(ids[m], env.turn(m));
    }
  }

  /** A session is complete exactly when every task left to run goes on. After it, of the tasks
      left to run, exactly those before the first that does not go on have succeeded. */
  lemma SuccessMeaning(env: Env, j: seq<Event>) returns (left: seq<string>, m: nat)
    requires Distinct(Ids(env.tasks))
    ensures var o, r := j + Replay(j, env.runId, env.replayedAt, NextSeq(j)), Session(env, j);
      && LeftToRun(Ids(env.tasks), o, left) && GoOnFor(env, left, 0, m)
      && (r.outcome == Complete <==> m == |left|)
      && (forall k :: 0 <= k < |left| ==> (StatusIn(r.cursor.journal, left[k]) == Some(IsSucceeded) <==> k < m))
  {
    var o := Opening(env, j).journal;
    left := Remaining(Ids(env.tasks), o);
    m := Completed(env, left, 0);
    RemainingMeaning(Ids(env.tasks), o);
    RemainingFacts(Ids(env.tasks), o);
    CompletedGoOn(env, left);
    SessionMirrors(env, j);
    forall k | 0 <= k < |left| ensures StatusIn(Session(env, j).cursor.journal, left[k]) == Some(IsSucceeded) <==> k < m {
      assert left[k] in left;
      ReportedIff(env, left, Session(env, j).cursor.emitted, k);
      MirrorsAt(o, Session(env, j).cursor, left, left[k]);
    }
  }
}
