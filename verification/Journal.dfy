/** The task journal, its reduction to a snapshot, and the closing of orphaned tasks. */
module Journal {
  import opened Prelude

  datatype ArtifactRef = ArtifactRef(stage: string, kind: string, uri: string, description: string)

  datatype CancelCause = Sigint | Sentinel | Abort

  /** The event kinds with the members each kind carries. */
  datatype Transition =
    | Pending
    | Running
    | Succeeded(evidence: ArtifactRef)
    | Failed(reason: string, retryReason: Option<string>, failureEvidence: Option<ArtifactRef>)
    | TimedOut(timeoutEvidence: Option<ArtifactRef>)
    | Cancelled(cause: CancelCause, cancelEvidence: Option<ArtifactRef>)
  {
    predicate Terminal() { !Pending? && !Running? }

    function Evidence(): Option<ArtifactRef> {
      match this
      case Succeeded(e) => Some(e)
      case Failed(_, _, e) => e
      case TimedOut(e) => e
      case Cancelled(_, e) => e
      case _ => None
    }
  }

  datatype Event = Event(runId: string, taskId: string, at: string, attempt: nat, seqNo: nat, step: Transition)

  datatype Status = IsPending | IsRunning | IsSucceeded | IsFailed | IsTimedOut | IsCancelled
  {
    predicate Terminal() { !IsPending? && !IsRunning? }
  }

  datatype TaskRecord = TaskRecord(status: Status, attempt: nat, evidence: Option<ArtifactRef>, lastTransitionAt: string)

  /** The snapshot file, without its `generatedAt` clock reading and its constant members. */
  datatype Snapshot = Snapshot(lastEventSeq: nat, tasks: map<string, TaskRecord>)

  function StatusOf(step: Transition): (s: Status)
    ensures s.Terminal() == step.Terminal()
  {
    match step
    case Pending => IsPending
    case Running => IsRunning
    case Succeeded(_) => IsSucceeded
    case Failed(_, _, _) => IsFailed
    case TimedOut(_) => IsTimedOut
    case Cancelled(_, _) => IsCancelled
  }

  function TaskFromEvent(e: Event): TaskRecord {
    TaskRecord(StatusOf(e.step), e.attempt, e.step.Evidence(), e.at)
  }

  function Max(a: nat, b: nat): nat { if a < b then b else a }

  function Absorb(s: Snapshot, e: Event): Snapshot {
    Snapshot(Max(s.lastEventSeq, e.seqNo), s.tasks[e.taskId := TaskFromEvent(e)])
  }

  /** A snapshot brought up to date with further events. */
  function FoldOnto(s: Snapshot, events: seq<Event>): Snapshot {
    if events == [] then s
    else Absorb(FoldOnto(s, events[..|events| - 1]), events[|events| - 1])
  }

  function Reduce(events: seq<Event>): Snapshot { FoldOnto(Snapshot(0, map[]), events) }

  method ReduceJournalToSnapshot(events: seq<Event>) returns (snapshot: Snapshot)
    ensures snapshot == Reduce(events)
  {
    var tasks: map<string, TaskRecord> := map[];
    var lastEventSeq := 0;
    for i := 0 to |events|
      invariant Snapshot(lastEventSeq, tasks) == Reduce(events[..i])
    {
      assert events[..i + 1][..i] == events[..i];
      lastEventSeq := Max(lastEventSeq, events[i].seqNo);
      tasks := tasks[events[i].taskId := TaskFromEvent(events[i])];
    }
    assert events[..|events|] == events;
    snapshot := Snapshot(lastEventSeq, tasks);
  }

  lemma {:induction false} FoldConcat(s: Snapshot, a: seq<Event>, b: seq<Event>)
    ensures FoldOnto(s, a + b) == FoldOnto(FoldOnto(s, a), b)
  {
    if b == [] {
      assert a + b == a;
    } else {
      var n := |b| - 1;
      FoldConcat(s, a, b[..n]);
      assert (a + b)[..|a + b| - 1] == a + b[..n];
    }
  }

  /** `nextSeq`: one more than the largest sequence number seen. */
  function NextSeq(events: seq<Event>): nat { Reduce(events).lastEventSeq + 1 }

  function RecordIn(events: seq<Event>, id: string): Option<TaskRecord> {
    var tasks := Reduce(events).tasks;
    if id in tasks then Some(tasks[id]) else None
  }

  predicate IsOrphan(events: seq<Event>, id: string) {
    RecordIn(events, id).Some? && RecordIn(events, id).value.status == IsRunning
  }

  /** A task untouched by later events keeps its record. */
  lemma {:induction false} UntouchedRecord(a: seq<Event>, b: seq<Event>, id: string)
    requires forall i :: 0 <= i < |b| ==> b[i].taskId != id
    ensures RecordIn(a + b, id) == RecordIn(a, id)
  {
    if b == [] {
      assert a + b == a;
    } else {
      var n := |b| - 1;
      UntouchedRecord(a, b[..n], id);
      assert a + b == (a + b[..n]) + [b[n]];
    }
  }

  /** A task's record comes from the last event about it. */
  lemma LastRecord(a: seq<Event>, b: seq<Event>, k: nat)
    requires k < |b| && forall i :: k < i < |b| ==> b[i].taskId != b[k].taskId
    ensures RecordIn(a + b, b[k].taskId) == Some(TaskFromEvent(b[k]))
  {
    assert a + b == (a + b[..k] + [b[k]]) + b[k + 1..];
    UntouchedRecord(a + b[..k] + [b[k]], b[k + 1..], b[k].taskId);
  }

  /** What a record says: the kind, attempt and time of the last event about its task, and that
      event's evidence, if its kind carries any. */
  lemma RecordMeaning(a: seq<Event>, b: seq<Event>, k: nat)
    requires k < |b| && forall i :: k < i < |b| ==> b[i].taskId != b[k].taskId
    ensures RecordIn(a + b, b[k].taskId).Some?
    ensures var r, step := RecordIn(a + b, b[k].taskId).value, b[k].step;
      && r.attempt == b[k].attempt && r.lastTransitionAt == b[k].at
      && (r.status == IsPending <==> step.Pending?) && (r.status == IsRunning <==> step.Running?)
      && (r.status == IsSucceeded <==> step.Succeeded?) && (r.status == IsFailed <==> step.Failed?)
      && (r.status == IsTimedOut <==> step.TimedOut?) && (r.status == IsCancelled <==> step.Cancelled?)
      && (step.Succeeded? ==> r.evidence == Some(step.evidence)) && (step.Failed? ==> r.evidence == step.failureEvidence)
      && (step.TimedOut? ==> r.evidence == step.timeoutEvidence) && (step.Cancelled? ==> r.evidence == step.cancelEvidence)
      && (step.Pending? || step.Running? ==> r.evidence == None)
  {
    LastRecord(a, b, k);
  }

  /** A task no event is about has no record. */
  lemma NoRecord(events: seq<Event>, id: string)
    requires forall i :: 0 <= i < |events| ==> events[i].taskId != id
    ensures RecordIn(events, id) == None
  {
    UntouchedRecord([], events, id);
    assert [] + events == events;
  }

  /** A snapshot's sequence number is the largest among its events, and 0 if there is none larger. */
  lemma {:induction false} HighestNumber(events: seq<Event>)
    ensures var n := Reduce(events).lastEventSeq;
      && (forall i :: 0 <= i < |events| ==> events[i].seqNo <= n)
      && (n == 0 || exists i :: 0 <= i < |events| && events[i].seqNo == n)
  {
    if events != [] {
      var m := |events| - 1;
      HighestNumber(events[..m]);
      var before, n := Reduce(events[..m]).lastEventSeq, Reduce(events).lastEventSeq;
      forall i | 0 <= i < |events| ensures events[i].seqNo <= n {
        if i < m { assert events[..m][i].seqNo <= before; }
      }
      if n == before && n != 0 {
        var i :| 0 <= i < m && events[..m][i].seqNo == before;
        assert events[i].seqNo == n;
      }
    }
  }

  // ---------- orphan replay ----------

  /** The latest event of every task: a map together with its insertion order. */
  datatype LatestByTask = LatestByTask(order: seq<string>, latest: map<string, Event>)

  function SetLatest(m: LatestByTask, e: Event): LatestByTask {
    LatestByTask(if e.taskId in m.latest then m.order else m.order + [e.taskId], m.latest[e.taskId := e])
  }

  function Latest(events: seq<Event>): LatestByTask {
    if events == [] then LatestByTask([], map[])
    else SetLatest(Latest(events[..|events| - 1]), events[|events| - 1])
  }

  const ORPHANED := "orphaned-by-crash"

  function OrphanFailure(runId: string, e: Event, now: string, seqNo: nat): Event {
    Event(runId, e.taskId, now, e.attempt, seqNo, Failed(ORPHANED, Some(ORPHANED), None))
  }

  function ReplayOver(ids: seq<string>, latest: map<string, Event>, runId: string, now: string, next: nat): seq<Event>
    requires forall id | id in ids :: id in latest
  {
    if ids == [] then []
    else
      var before := ReplayOver(ids[..|ids| - 1], latest, runId, now, next);
      var e := latest[ids[|ids| - 1]];
      if e.step.Running? then before + [OrphanFailure(runId, e, now, next + |before|)] else before
  }

  lemma {:induction false} LatestMatchesReduce(events: seq<Event>)
    ensures var m := Latest(events);
      && Distinct(m.order)
      && (forall id :: id in m.order <==> id in m.latest)
      && (forall id | id in m.latest :: m.latest[id].taskId == id)
      && (forall id :: id in m.latest <==> RecordIn(events, id).Some?)
      && (forall id | id in m.latest :: RecordIn(events, id) == Some(TaskFromEvent(m.latest[id])))
  {
    if events != [] {
      var n := |events| - 1;
      LatestMatchesReduce(events[..n]);
      var m, e := Latest(events[..n]), events[n];
      assert events == events[..n] + [e];
      forall id | id != e.taskId ensures RecordIn(events, id) == RecordIn(events[..n], id) {
      }
    }
  }

  /** The events a restart appends for tasks left running. */
  function Replay(events: seq<Event>, runId: string, now: string, next: nat): seq<Event> {
    LatestMatchesReduce(events);
    ReplayOver(Latest(events).order, Latest(events).latest, runId, now, next)
  }

  method ReplayOrphanedTasks(runId: string, events: seq<Event>, nowIso: string, nextSeq: nat) returns (replayed: seq<Event>)
    ensures replayed == Replay(events, runId, nowIso, nextSeq)
  {
    var order: seq<string> := [];
    var latestByTask: map<string, Event> := map[];
    for i := 0 to |events|
      invariant LatestByTask(order, latestByTask) == Latest(events[..i])
    {
      assert events[..i + 1][..i] == events[..i];
      order := if events[i].taskId in latestByTask then order else order + [events[i].taskId];
      latestByTask := latestByTask[events[i].taskId := events[i]];
    }
    assert events[..|events|] == events;
    LatestMatchesReduce(events);
    replayed := [];
    var seqNo := nextSeq;
    for i := 0 to |order|
      invariant seqNo == nextSeq + |replayed|
      invariant replayed == ReplayOver(order[..i], latestByTask, runId, nowIso, nextSeq)
    {
      assert order[..i + 1][..i] == order[..i];
      var event := latestByTask[order[i]];
      if event.step.Running? {
        replayed := replayed + [OrphanFailure(runId, event, nowIso, seqNo)];
        seqNo := seqNo + 1;
      }
    }
    assert order[..|order|] == order;
  }

  ghost predicate Keyed(ids: seq<string>, latest: map<string, Event>) {
    forall id | id in ids :: id in latest && latest[id].taskId == id
  }

  lemma {:induction false} ReplayedAt(ids: seq<string>, latest: map<string, Event>, runId: string, now: string, next: nat, i: nat)
    requires Keyed(ids, latest) && i < |ReplayOver(ids, latest, runId, now, next)|
    ensures
      var e := ReplayOver(ids, latest, runId, now, next)[i];
      e.taskId in ids && latest[e.taskId].step.Running? && e == OrphanFailure(runId, latest[e.taskId], now, next + i)
  {
    var n := |ids| - 1;
    var before := ReplayOver(ids[..n], latest, runId, now, next);
    if i < |before| {
      ReplayedAt(ids[..n], latest, runId, now, next, i);
    } else {
      assert ids[n] in ids;
    }
  }

  lemma {:induction false} ReplayedOnce(ids: seq<string>, latest: map<string, Event>, runId: string, now: string, next: nat, i: nat, j: nat)
    requires Distinct(ids) && Keyed(ids, latest) && i < j < |ReplayOver(ids, latest, runId, now, next)|
    ensures
      var r := ReplayOver(ids, latest, runId, now, next);
      r[i].taskId != r[j].taskId
  {
    var n := |ids| - 1;
    var before := ReplayOver(ids[..n], latest, runId, now, next);
    if j < |before| {
      ReplayedOnce(ids[..n], latest, runId, now, next, i, j);
    } else {
      ReplayedAt(ids[..n], latest, runId, now, next, i);
      var k :| 0 <= k < n && ids[..n][k] == before[i].taskId;
      assert ids[k] != ids[n] && ids[n] in ids;
    }
  }

  lemma {:induction false} ReplayClosesOrphan(ids: seq<string>, latest: map<string, Event>, runId: string,
                                              now: string, next: nat, id: string)
    returns (i: nat)
    requires Keyed(ids, latest) && id in ids && latest[id].step.Running?
    ensures i < |ReplayOver(ids, latest, runId, now, next)| && ReplayOver(ids, latest, runId, now, next)[i].taskId == id
  {
    var n := |ids| - 1;
    var before := ReplayOver(ids[..n], latest, runId, now, next);
    if id == ids[n] {
      i := |before|;
    } else {
      assert id in ids[..n];
      i := ReplayClosesOrphan(ids[..n], latest, runId, now, next, id);
    }
  }

  /** Orphan replay is exact, for any event list: one failure per task whose snapshot
      status is running and for no other, carrying that task's attempt, numbered consecutively. */
  lemma ReplayExact(events: seq<Event>, runId: string, now: string, next: nat)
    ensures var r := Replay(events, runId, now, next);
      && (forall i :: 0 <= i < |r| ==>
            && IsOrphan(events, r[i].taskId)
            && r[i] == Event(runId, r[i].taskId, now, RecordIn(events, r[i].taskId).value.attempt, next + i,
                             Failed("orphaned-by-crash", Some("orphaned-by-crash"), None)))
      && (forall i, j :: 0 <= i < j < |r| ==> r[i].taskId != r[j].taskId)
      && (forall id :: IsOrphan(events, id) ==> exists i :: 0 <= i < |r| && r[i].taskId == id)
  {
    var m, r := Latest(events), Replay(events, runId, now, next);
    LatestMatchesReduce(events);
    forall i | 0 <= i < |r|
      ensures IsOrphan(events, r[i].taskId)
      ensures r[i] == Event(runId, r[i].taskId, now, RecordIn(events, r[i].taskId).value.attempt, next + i,
                            Failed(ORPHANED, Some(ORPHANED), None))
    {
      ReplayedAt(m.order, m.latest, runId, now, next, i);
      var id := r[i].taskId;
      assert RecordIn(events, id) == Some(TaskFromEvent(m.latest[id]));
    }
    forall i, j | 0 <= i < j < |r| ensures r[i].taskId != r[j].taskId { ReplayedOnce(m.order, m.latest, runId, now, next, i, j); }
    forall id | IsOrphan(events, id) ensures exists i :: 0 <= i < |r| && r[i].taskId == id {
      assert RecordIn(events, id) == Some(TaskFromEvent(m.latest[id]));
      assert id in m.order && m.latest[id].step.Running?;
      var i := ReplayClosesOrphan(m.order, m.latest, runId, now, next, id);
    }
  }

  /** The status and attempt of a task: what a restart decides on. */
  function Standing(events: seq<Event>, id: string): Option<(Status, nat)> {
    match RecordIn(events, id)
    case None => None
    case Some(r) => Some((r.status, r.attempt))
  }

  /** Where a task stands after its restart: running becomes failed, all else is unchanged. */
  function Settled(events: seq<Event>, id: string): Option<(Status, nat)> {
    if IsOrphan(events, id) then Some((IsFailed, RecordIn(events, id).value.attempt)) else Standing(events, id)
  }

  /** After any part of the replay, the tasks already closed are failed and all others are as they were. */
  lemma PartialReplay(events: seq<Event>, runId: string, now: string, next: nat, k: nat, id: string)
    requires k <= |Replay(events, runId, now, next)|
    ensures var r := Replay(events, runId, now, next);
      if exists i :: 0 <= i < k && r[i].taskId == id
      then IsOrphan(events, id) && Standing(events + r[..k], id) == Settled(events, id)
      else RecordIn(events + r[..k], id) == RecordIn(events, id)
  {
    var r := Replay(events, runId, now, next);
    ReplayExact(events, runId, now, next);
    if i :| 0 <= i < k && r[i].taskId == id {
      LastRecord(events, r[..k], i);
      assert r[..k][i] == r[i];
    } else {
      UntouchedRecord(events, r[..k], id);
    }
  }

  /** After replay no task is running; a task that was running is failed with its own
      attempt, and every other task keeps its whole record. */
  lemma ReplaySettles(events: seq<Event>, runId: string, now: string, next: nat, id: string)
    ensures var after := events + Replay(events, runId, now, next);
      && !IsOrphan(after, id)
      && Standing(after, id) == Settled(events, id)
      && (!IsOrphan(events, id) ==> RecordIn(after, id) == RecordIn(events, id))
  {
    var r := Replay(events, runId, now, next);
    ReplayExact(events, runId, now, next);
    assert r[..|r|] == r;
    PartialReplay(events, runId, now, next, |r|, id);
  }

  /** Replaying a replayed journal adds nothing. */
  lemma ReplayIdempotent(events: seq<Event>, runId: string, now: string, next: nat, runId': string, now': string, next': nat)
    ensures Replay(events + Replay(events, runId, now, next), runId', now', next') == []
  {
    var after := events + Replay(events, runId, now, next);
    var again := Replay(after, runId', now', next');
    ReplayExact(after, runId', now', next');
    if again != [] {
      ReplaySettles(events, runId, now, next, again[0].taskId);
    }
  }

  /** A crash after any number of the appends, followed by a fresh replay at any later
      time, leaves every task where the uninterrupted replay leaves it. */
  lemma ReplayRestartable(events: seq<Event>, runId: string, now: string, next: nat, k: nat, now': string, next': nat, id: string)
    requires k <= |Replay(events, runId, now, next)|
    ensures var r := Replay(events, runId, now, next);
      var torn := events + r[..k];
      Standing(torn + Replay(torn, runId, now', next'), id) == Standing(events + r, id)
  {
    var r := Replay(events, runId, now, next);
    var torn := events + r[..k];
    PartialReplay(events, runId, now, next, k, id);
    ReplaySettles(torn, runId, now', next', id);
    ReplaySettles(events, runId, now, next, id);
  }

  // ---------- the order of a replay ----------

  /** Some event about `a` comes before every event about `b`. */
  ghost predicate SeenBefore(events: seq<Event>, a: string, b: string) {
    exists i :: 0 <= i < |events| && events[i].taskId == a && forall k :: 0 <= k <= i ==> events[k].taskId != b
  }

  lemma {:induction false} OrderSeen(events: seq<Event>, id: string)
    ensures id in Latest(events).order <==> exists i :: 0 <= i < |events| && events[i].taskId == id
    ensures id in Latest(events).order <==> id in Latest(events).latest
  {
    if events != [] {
      var n := |events| - 1;
      OrderSeen(events[..n], id);
      assert forall i :: 0 <= i < n ==> events[..n][i] == events[i];
      if i :| 0 <= i < n && events[i].taskId == id { assert events[..n][i].taskId == id; }
    }
  }

  lemma {:induction false} LatestOrder(events: seq<Event>, p: nat, q: nat)
    requires p < q < |Latest(events).order|
    ensures SeenBefore(events, Latest(events).order[p], Latest(events).order[q])
  {
    var n := |events| - 1;
    var before, a, b := Latest(events[..n]).order, Latest(events).order[p], Latest(events).order[q];
    assert forall i :: 0 <= i < n ==> events[..n][i] == events[i];
    if q < |before| {
      LatestOrder(events[..n], p, q);
      var i :| 0 <= i < n && events[..n][i].taskId == a && forall k :: 0 <= k <= i ==> events[..n][k].taskId != b;
      assert events[i].taskId == a;
    } else {
      OrderSeen(events[..n], a);
      OrderSeen(events[..n], b);
      assert a in before;
      var i :| 0 <= i < n && events[..n][i].taskId == a;
      forall k | 0 <= k <= i ensures events[k].taskId != b { assert events[..n][k] == events[k]; }
      assert events[i].taskId == a;
    }
  }

  lemma {:induction false} ReplayedInOrder(ids: seq<string>, latest: map<string, Event>, runId: string, now: string, next: nat,
                                           p: nat, q: nat)
    returns (u: nat, v: nat)
    requires Keyed(ids, latest) && p < q < |ReplayOver(ids, latest, runId, now, next)|
    ensures var r := ReplayOver(ids, latest, runId, now, next);
      u < v < |ids| && ids[u] == r[p].taskId && ids[v] == r[q].taskId
  {
    var n := |ids| - 1;
    var before := ReplayOver(ids[..n], latest, runId, now, next);
    if q < |before| {
      u, v := ReplayedInOrder(ids[..n], latest, runId, now, next, p, q);
    } else {
      ReplayedAt(ids[..n], latest, runId, now, next, p);
      u :| 0 <= u < n && ids[..n][u] == before[p].taskId;
      v := n;
      assert ids[n] in ids;
    }
  }

  /** Orphans are closed in the order in which their tasks first appear in the journal. */
  lemma ReplayOrder(events: seq<Event>, runId: string, now: string, next: nat, p: nat, q: nat)
    requires p < q < |Replay(events, runId, now, next)|
    ensures var r := Replay(events, runId, now, next); SeenBefore(events, r[p].taskId, r[q].taskId)
  {
    var m := Latest(events);
    LatestMatchesReduce(events);
    var u, v := ReplayedInOrder(m.order, m.latest, runId, now, next, p, q);
    LatestOrder(events, u, v);
  }
}
