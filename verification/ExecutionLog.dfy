/** The durable history of a run directory: every journal append, snapshot replacement,
    adapter execution and change-set application, in the order they happened; the
    discipline each of them obeys; and what that discipline implies. */
module ExecutionLog {
  import opened Prelude
  import opened Journal

  datatype Op =
    | Append(event: Event)
    | WriteSnapshot(snapshot: Snapshot)
    | Execute(taskId: string)
    | ApplyChangeSet(taskId: string)

  function JournalOf(h: seq<Op>): seq<Event> {
    if h == [] then []
    else
      var before := JournalOf(h[..|h| - 1]);
      match h[|h| - 1]
      case Append(e) => before + [e]
      case _ => before
  }

  function SnapshotOf(h: seq<Op>): Option<Snapshot> {
    if h == [] then None
    else
      match h[|h| - 1]
      case WriteSnapshot(s) => Some(s)
      case _ => SnapshotOf(h[..|h| - 1])
  }

  function Executed(h: seq<Op>): multiset<string> {
    if h == [] then multiset{}
    else
      match h[|h| - 1]
      case Execute(id) => Executed(h[..|h| - 1]) + multiset{id}
      case _ => Executed(h[..|h| - 1])
  }

  function Applied(h: seq<Op>): multiset<string> {
    if h == [] then multiset{}
    else
      match h[|h| - 1]
      case ApplyChangeSet(id) => Applied(h[..|h| - 1]) + multiset{id}
      case _ => Applied(h[..|h| - 1])
  }

  // ---------- the discipline ----------

  function StatusIn(j: seq<Event>, id: string): Option<Status> {
    match RecordIn(j, id)
    case None => None
    case Some(r) => Some(r.status)
  }

  /** none to {pending, cancelled}; pending to {pending, running, cancelled}; running to terminal; terminal absorbs. */
  predicate LegalTransition(from: Option<Status>, step: Transition) {
    match from
    case None => step.Pending? || step.Cancelled?
    case Some(IsPending) => step.Pending? || step.Running? || step.Cancelled?
    case Some(IsRunning) => step.Terminal()
    case Some(_) => false
  }

  /** No task is running at the end of the journal. */
  predicate Idle(j: seq<Event>) { j == [] || !j[|j| - 1].step.Running? }

  predicate LegalEvent(j: seq<Event>, e: Event) {
    && e.seqNo == |j| + 1
    && (Idle(j) || e.taskId == j[|j| - 1].taskId)
    && LegalTransition(StatusIn(j, e.taskId), e.step)
  }

  predicate WellFormedJournal(j: seq<Event>) {
    j == [] || (WellFormedJournal(j[..|j| - 1]) && LegalEvent(j[..|j| - 1], j[|j| - 1]))
  }

  /** The last thing that happened, snapshots aside, is that `id` was recorded as running. */
  predicate JustRunning(h: seq<Op>, id: string) {
    h != [] &&
    match h[|h| - 1]
    case Append(e) => e.taskId == id && e.step.Running?
    case WriteSnapshot(_) => JustRunning(h[..|h| - 1], id)
    case _ => false
  }

  predicate LegalOp(h: seq<Op>, op: Op) {
    match op
    case Append(e) => LegalEvent(JournalOf(h), e)
    case WriteSnapshot(s) => s == Reduce(JournalOf(h))
    case Execute(id) => JustRunning(h, id)
    case ApplyChangeSet(id) => h != [] && h[|h| - 1] == Execute(id)
  }

  predicate WellFormed(h: seq<Op>) {
    h == [] || (WellFormed(h[..|h| - 1]) && LegalOp(h[..|h| - 1], h[|h| - 1]))
  }

  lemma {:induction false} WellFormedPrefix(h: seq<Op>, k: nat)
    requires WellFormed(h) && k <= |h|
    ensures WellFormed(h[..k])
  {
    if k == |h| {
      assert h[..k] == h;
    } else {
      WellFormedPrefix(h[..|h| - 1], k);
      assert h[..|h| - 1][..k] == h[..k];
    }
  }

  lemma Snoc(h: seq<Op>, op: Op)
    ensures (h + [op])[..|h + [op]| - 1] == h && (h + [op])[|h + [op]| - 1] == op
  {
  }

  // ---------- what it implies ----------

  /** Sequence numbers are exactly 1..n. */
  predicate Numbered(j: seq<Event>) { forall i :: 0 <= i < |j| ==> j[i].seqNo == i + 1 }

  lemma {:induction false} NumberedReduces(j: seq<Event>)
    requires Numbered(j)
    ensures Reduce(j).lastEventSeq == |j|
  {
    if j != [] {
      var n := |j| - 1;
      assert Numbered(j[..n]) by { assert forall i :: 0 <= i < n ==> j[..n][i] == j[i]; }
      NumberedReduces(j[..n]);
    }
  }

  lemma {:induction false} SequenceNumbers(j: seq<Event>)
    requires WellFormedJournal(j)
    ensures Numbered(j) && Reduce(j).lastEventSeq == |j|
  {
    if j != [] {
      var n := |j| - 1;
      SequenceNumbers(j[..n]);
      forall i | 0 <= i < |j| ensures j[i].seqNo == i + 1 {
        if i < n { assert j[..n][i] == j[i]; }
      }
    }
  }

  lemma LatestStatus(j: seq<Event>, e: Event, id: string)
    ensures RecordIn(j + [e], id) == if id == e.taskId then Some(TaskFromEvent(e)) else RecordIn(j, id)
  {
  }

  /** A running task is unique and its event is the last of the journal. */
  lemma {:induction false} RunningIsLast(j: seq<Event>, id: string)
    requires WellFormedJournal(j)
    ensures IsOrphan(j, id) <==> j != [] && j[|j| - 1].step.Running? && j[|j| - 1].taskId == id
  {
    if j != [] {
      var n := |j| - 1;
      RunningIsLast(j[..n], id);
      LatestStatus(j[..n], j[n], id);
      assert j == j[..n] + [j[n]];
    }
  }

  /** Once terminal, a task stays so and has no further events. */
  lemma {:induction false} TerminalAbsorbs(j: seq<Event>, i: nat)
    requires WellFormedJournal(j) && i < |j| && j[i].step.Terminal()
    ensures StatusIn(j, j[i].taskId) == Some(StatusOf(j[i].step))
    ensures forall k :: i < k < |j| ==> j[k].taskId != j[i].taskId
  {
    var n := |j| - 1;
    assert j == j[..n] + [j[n]];
    LatestStatus(j[..n], j[n], j[i].taskId);
    if i < n {
      TerminalAbsorbs(j[..n], i);
      assert forall k :: i < k < n ==> j[..n][k] == j[k];
    }
  }

  lemma {:induction false} JournalWellFormed(h: seq<Op>)
    requires WellFormed(h)
    ensures WellFormedJournal(JournalOf(h))
  {
    if h != [] {
      var n := |h| - 1;
      JournalWellFormed(h[..n]);
      if h[n].Append? {
        var j := JournalOf(h);
        assert j[..|j| - 1] == JournalOf(h[..n]);
      }
    }
  }

  // ---------- one task's share of the discipline ----------

  /** The discipline as far as it concerns one task: what the others do is left open. */
  predicate LegalFor(h: seq<Op>, op: Op, id: string) {
    match op
    case Append(e) => e.taskId == id ==> LegalTransition(StatusIn(JournalOf(h), id), e.step)
    case WriteSnapshot(_) => true
    case Execute(t) => t == id ==> JustRunning(h, id)
    case ApplyChangeSet(t) => t == id ==> h != [] && h[|h| - 1] == Execute(id)
  }

  predicate Obeys(h: seq<Op>, id: string) {
    h == [] || (Obeys(h[..|h| - 1], id) && LegalFor(h[..|h| - 1], h[|h| - 1], id))
  }

  lemma {:induction false} ObeysPrefix(h: seq<Op>, id: string, k: nat)
    requires Obeys(h, id) && k <= |h|
    ensures Obeys(h[..k], id)
  {
    if k == |h| {
      assert h[..k] == h;
    } else {
      ObeysPrefix(h[..|h| - 1], id, k);
      assert h[..|h| - 1][..k] == h[..k];
    }
  }

  /** How often a task may have been executed and applied, given where the history stands. */
  ghost predicate Bounded(h: seq<Op>, id: string) {
    && Executed(h)[id] <= 1
    && Applied(h)[id] <= Executed(h)[id]
    && (Executed(h)[id] == 1 ==> StatusIn(JournalOf(h), id).Some? && StatusIn(JournalOf(h), id) != Some(IsPending))
    && (JustRunning(h, id) ==> Executed(h)[id] == 0)
    && (h != [] && h[|h| - 1] == Execute(id) ==> Applied(h)[id] == 0)
  }

  lemma {:induction false} ExecutionsBounded(h: seq<Op>, id: string)
    requires Obeys(h, id)
    ensures Bounded(h, id)
  {
    if h != [] {
      var n := |h| - 1;
      ExecutionsBounded(h[..n], id);
      match h[n] {
        case Append(e) => LatestStatus(JournalOf(h[..n]), e, id);
        case Execute(t) => if t == id { JustRunningStatus(h[..n], id); }
        case _ =>
      }
    }
  }

  lemma {:induction false} JustRunningStatus(h: seq<Op>, id: string)
    requires JustRunning(h, id)
    ensures StatusIn(JournalOf(h), id) == Some(IsRunning)
  {
    var n := |h| - 1;
    if h[n].Append? {
      LatestStatus(JournalOf(h[..n]), h[n].event, id);
    } else {
      JustRunningStatus(h[..n], id);
    }
  }

  /** The adapter runs at most once for a task that obeys the discipline, and so does its change set. */
  lemma AtMostOnce(h: seq<Op>, id: string)
    requires Obeys(h, id)
    ensures Executed(h)[id] <= 1 && Applied(h)[id] <= 1
    ensures Applied(h)[id] == 1 ==> Executed(h)[id] == 1
  {
    ExecutionsBounded(h, id);
  }

  // ---------- the record-keeping share of the discipline ----------

  /** An append carries the next number and a snapshot is the reduction; which task moves how is left open. */
  predicate KeepsRecord(h: seq<Op>, op: Op) {
    match op
    case Append(e) => e.seqNo == |JournalOf(h)| + 1
    case WriteSnapshot(s) => s == Reduce(JournalOf(h))
    case _ => true
  }

  predicate Kept(h: seq<Op>) {
    h == [] || (Kept(h[..|h| - 1]) && KeepsRecord(h[..|h| - 1], h[|h| - 1]))
  }

  lemma {:induction false} KeptPrefix(h: seq<Op>, k: nat)
    requires Kept(h) && k <= |h|
    ensures Kept(h[..k])
  {
    if k == |h| {
      assert h[..k] == h;
    } else {
      KeptPrefix(h[..|h| - 1], k);
      assert h[..|h| - 1][..k] == h[..k];
    }
  }

  lemma {:induction false} KeptNumbers(h: seq<Op>)
    requires Kept(h)
    ensures Numbered(JournalOf(h)) && Reduce(JournalOf(h)).lastEventSeq == |JournalOf(h)|
  {
    if h != [] { KeptNumbers(h[..|h| - 1]); }
    assert Numbered(JournalOf(h));
    NumberedReduces(JournalOf(h));
  }

  /** The stored snapshot is the reduction of exactly the journal events numbered up to
      its `lastEventSeq`, and folding the later events onto it gives the full reduction. */
  lemma {:induction false} SnapshotConsistent(h: seq<Op>)
    requires Kept(h) && SnapshotOf(h).Some?
    ensures var j, s := JournalOf(h), SnapshotOf(h).value;
      && s.lastEventSeq <= |j|
      && s == Reduce(j[..s.lastEventSeq])
      && (forall i :: 0 <= i < |j| ==> (j[i].seqNo <= s.lastEventSeq <==> i < s.lastEventSeq))
      && FoldOnto(s, j[s.lastEventSeq..]) == Reduce(j)
  {
    KeptNumbers(h);
    var j := JournalOf(h);
    var k := SnapshotTaken(h);
    assert j == j[..k] + j[k..];
    FoldConcat(Snapshot(0, map[]), j[..k], j[k..]);
  }

  lemma {:induction false} SnapshotTaken(h: seq<Op>) returns (k: nat)
    requires Kept(h) && SnapshotOf(h).Some?
    ensures var j, s := JournalOf(h), SnapshotOf(h).value;
      k <= |j| && s == Reduce(j[..k]) && s.lastEventSeq == k
  {
    var n := |h| - 1;
    var j := JournalOf(h);
    if h[n].WriteSnapshot? {
      k := |j|;
      KeptNumbers(h);
      assert j[..k] == j;
    } else {
      k := SnapshotTaken(h[..n]);
      assert JournalOf(h[..n])[..k] == j[..k];
    }
  }

  /** The events appended since the snapshot was last written. */
  function Unsnapshotted(h: seq<Op>): seq<Event> {
    if h == [] then []
    else
      match h[|h| - 1]
      case WriteSnapshot(_) => []
      case Append(e) => Unsnapshotted(h[..|h| - 1]) + [e]
      case _ => Unsnapshotted(h[..|h| - 1])
  }
}
