/** A journal event as the JSON object its line holds. */
module JournalRecord {
  import opened Prelude
  import Text
  import J = Json
  import opened Journal

  // ---------- an event as a JSON object ----------

  function Str(key: string, text: string): J.Field { J.Field(key, J.String(text)) }

  function Num(key: string, n: nat): J.Field { J.Field(key, J.Number(Text.Decimal(n))) }

  function ArtifactJson(a: ArtifactRef): J.Value {
    J.Object([Str("stage", a.stage), Str("kind", a.kind), Str("uri", a.uri), Str("description", a.description)])
  }

  function EvidenceField(e: Option<ArtifactRef>): seq<J.Field> {
    match e
    case None => []
    case Some(a) => [J.Field("evidenceArtifact", ArtifactJson(a))]
  }

  function CauseText(c: CancelCause): string {
    match c
    case Sigint => "sigint"
    case Sentinel => "sentinel"
    case Abort => "abort"
  }

  function KindText(t: Transition): string {
    match t
    case Pending => "task-pending"
    case Running => "task-running"
    case Succeeded(_) => "task-succeeded"
    case Failed(_, _, _) => "task-failed"
    case TimedOut(_) => "task-timeout"
    case Cancelled(_, _) => "task-cancelled"
  }

  const SCHEMA := "1.0.0"

  /** The members special to the kind, in the order the writers give them. */
  function DetailFields(t: Transition): seq<J.Field> {
    match t
    case Failed(reason, retry, e) =>
      [Str("reason", reason)] + RetryField(retry) + EvidenceField(e)
    case Cancelled(cause, e) => [Str("cause", CauseText(cause))] + EvidenceField(e)
    case _ => EvidenceField(t.Evidence())
  }

  /** Events of the run loop and events of orphan replay list their common members in different orders. */
  function CommonFields(e: Event): seq<J.Field> {
    if e.step.Failed? && e.step.retryReason.Some? then
      [Str("schemaVersion", SCHEMA), Str("kind", KindText(e.step)), Str("runId", e.runId), Str("planTaskId", e.taskId),
       Str("at", e.at), Num("attempt", e.attempt), Num("seq", e.seqNo)]
    else
      [Str("schemaVersion", SCHEMA), Str("runId", e.runId), Num("seq", e.seqNo), Str("kind", KindText(e.step)),
       Str("planTaskId", e.taskId), Str("at", e.at), Num("attempt", e.attempt)]
  }

  function EventFields(e: Event): seq<J.Field> { CommonFields(e) + DetailFields(e.step) }

  function EventJson(e: Event): J.Value { J.Object(EventFields(e)) }

  // ---------- the object is well formed and determines the event ----------

  /** The common member names differ in length, which is how the proofs tell them apart. */
  ghost predicate DistinctLengths(fs: seq<J.Field>) {
    forall i, j :: 0 <= i < j < |fs| ==> |fs[i].key| != |fs[j].key|
  }

  ghost predicate CommonName(key: string) {
    |key| in {13, 5, 3, 4, 10, 2, 7} && (|key| == 5 ==> key[0] == 'r')
  }

  ghost predicate DetailName(key: string) {
    |key| in {6, 11, 16} || (|key| == 5 && key[0] == 'c')
  }

  lemma CommonNames(e: Event)
    ensures DistinctLengths(CommonFields(e))
    ensures forall f | f in CommonFields(e) :: CommonName(f.key)
  {
    var fs := CommonFields(e);
    assert |fs| == 7 && |fs[0].key| == 13;
    if e.step.Failed? && e.step.retryReason.Some? {
      assert |fs[1].key| == 4 && |fs[2].key| == 5 && |fs[3].key| == 10;
      assert |fs[4].key| == 2 && |fs[5].key| == 7 && |fs[6].key| == 3;
    } else {
      assert |fs[1].key| == 5 && |fs[2].key| == 3 && |fs[3].key| == 4;
      assert |fs[4].key| == 10 && |fs[5].key| == 2 && |fs[6].key| == 7;
    }
  }

  lemma DetailNames(t: Transition)
    ensures J.DistinctKeys(DetailFields(t))
    ensures forall f | f in DetailFields(t) :: DetailName(f.key)
  {
    assert |EvidenceField(t.Evidence())| <= 1;
  }

  lemma {:induction false} DecimalIsNumber(n: nat)
    ensures J.PhaseAfter(Text.Decimal(n)) == if n == 0 then J.Zero else J.Whole
  {
    var s := Text.Decimal(n);
    if n < 10 {
      assert s[..0] == [];
    } else {
      DecimalIsNumber(n / 10);
      assert s[..|s| - 1] == Text.Decimal(n / 10);
    }
  }

  lemma CommonValuesValid(e: Event)
    ensures forall f | f in CommonFields(e) :: J.Valid(f.value)
  {
    DecimalIsNumber(e.attempt);
    DecimalIsNumber(e.seqNo);
  }

  lemma ArtifactValid(a: ArtifactRef)
    ensures J.Valid(ArtifactJson(a))
  {
  }

  lemma DetailValuesValid(t: Transition)
    ensures forall f | f in DetailFields(t) :: J.Valid(f.value)
  {
    if t.Evidence().Some? { ArtifactValid(t.Evidence().value); }
  }

  lemma EventJsonValid(e: Event)
    ensures J.Valid(EventJson(e))
  {
    CommonNames(e);
    DetailNames(e.step);
    CommonValuesValid(e);
    DetailValuesValid(e.step);
  }

  lemma EventJsonOpens(e: Event)
    ensures J.OpensWithKey(EventFields(e))
  {
  }

  /** The members of a journal object determine its event. */
  lemma EventJsonInjective(a: Event, b: Event)
    requires EventJson(a) == EventJson(b)
    ensures a == b
  {
    var ca, cb := CommonFields(a), CommonFields(b);
    assert ca == EventFields(a)[..7] && cb == EventFields(b)[..7];
    assert DetailFields(a.step) == EventFields(a)[7..] && DetailFields(b.step) == EventFields(b)[7..];
    CommonInjective(a, b);
    StepInjective(a.step, b.step);
  }

  predicate ReplayOrder(e: Event) { e.step.Failed? && e.step.retryReason.Some? }

  lemma CommonInjective(a: Event, b: Event)
    requires CommonFields(a) == CommonFields(b)
    ensures a.(step := b.step) == b && KindText(a.step) == KindText(b.step)
  {
    var ca, cb := CommonFields(a), CommonFields(b);
    assert |ca[1].key| == if ReplayOrder(a) then 4 else 5;
    assert |cb[1].key| == if ReplayOrder(b) then 4 else 5;
    if ReplayOrder(a) {
      assert ca[1] == cb[1] && ca[2] == cb[2] && ca[3] == cb[3] && ca[4] == cb[4] && ca[5] == cb[5] && ca[6] == cb[6];
    } else {
      assert ca[1] == cb[1] && ca[2] == cb[2] && ca[3] == cb[3] && ca[4] == cb[4] && ca[5] == cb[5] && ca[6] == cb[6];
    }
    Text.DecimalRoundTrip(a.attempt);
    Text.DecimalRoundTrip(b.attempt);
    Text.DecimalRoundTrip(a.seqNo);
    Text.DecimalRoundTrip(b.seqNo);
  }

  lemma StepInjective(a: Transition, b: Transition)
    requires KindText(a) == KindText(b) && DetailFields(a) == DetailFields(b)
    ensures a == b
  {
    var fa, fb := DetailFields(a), DetailFields(b);
    var ea, eb := EvidenceField(a.Evidence()), EvidenceField(b.Evidence());
    match a {
      case Failed(reason, retry, e) =>
        FailedInjective(reason, retry, e, b.reason, b.retryReason, b.failureEvidence);
      case Cancelled(cause, e) =>
        assert fa[0] == fb[0] && fa[1..] == ea && fb[1..] == eb;
        assert CauseText(cause)[1] == CauseText(b.cause)[1];
        assert |CauseText(cause)| == |CauseText(b.cause)|;
      case _ =>
        assert fa == ea && fb == eb;
    }
  }

  function RetryField(retry: Option<string>): seq<J.Field> {
    if retry.Some? then [Str("retryReason", retry.value)] else []
  }

  lemma FailedInjective(reason: string, retry: Option<string>, e: Option<ArtifactRef>,
                        reason': string, retry': Option<string>, e': Option<ArtifactRef>)
    requires [Str("reason", reason)] + RetryField(retry) + EvidenceField(e)
          == [Str("reason", reason')] + RetryField(retry') + EvidenceField(e')
    ensures reason == reason' && retry == retry' && e == e'
  {
    var f := [Str("reason", reason)] + RetryField(retry) + EvidenceField(e);
    var f' := [Str("reason", reason')] + RetryField(retry') + EvidenceField(e');
    assert f[0] == Str("reason", reason) && f'[0] == Str("reason", reason');
    if retry.Some? {
      assert f[1] == Str("retryReason", retry.value) && |f[1].key| == 11;
    } else if e.Some? {
      assert |f[1].key| == 16;
    }
    if retry'.Some? {
      assert f'[1] == Str("retryReason", retry'.value) && |f'[1].key| == 11;
    } else if e'.Some? {
      assert |f'[1].key| == 16;
    }
    var n := 1 + |RetryField(retry)|;
    assert EvidenceField(e) == f[n..] && EvidenceField(e') == f'[n..];
  }

  // ---------- the members by name ----------

  lemma CommonMembers(e: Event)
    ensures Str("schemaVersion", "1.0.0") in EventFields(e) && Str("runId", e.runId) in EventFields(e)
    ensures Str("planTaskId", e.taskId) in EventFields(e) && Str("at", e.at) in EventFields(e)
    ensures Num("attempt", e.attempt) in EventFields(e) && Num("seq", e.seqNo) in EventFields(e)
    ensures Str("kind", KindText(e.step)) in EventFields(e)
  {
    var c, d := CommonFields(e), DetailFields(e.step);
    assert forall f | f in c :: f in c + d;
    if e.step.Failed? && e.step.retryReason.Some? {
      assert c[0] == Str("schemaVersion", "1.0.0") && c[1] == Str("kind", KindText(e.step)) && c[2] == Str("runId", e.runId);
      assert c[3] == Str("planTaskId", e.taskId) && c[4] == Str("at", e.at);
      assert c[5] == Num("attempt", e.attempt) && c[6] == Num("seq", e.seqNo);
    } else {
      assert c[0] == Str("schemaVersion", "1.0.0") && c[1] == Str("runId", e.runId) && c[2] == Num("seq", e.seqNo);
      assert c[3] == Str("kind", KindText(e.step)) && c[4] == Str("planTaskId", e.taskId);
      assert c[5] == Str("at", e.at) && c[6] == Num("attempt", e.attempt);
    }
  }

  lemma KindNames()
    ensures KindText(Pending) == "task-pending" && KindText(Running) == "task-running"
    ensures forall e :: KindText(Succeeded(e)) == "task-succeeded"
    ensures forall r, s, e :: KindText(Failed(r, s, e)) == "task-failed"
    ensures forall e :: KindText(TimedOut(e)) == "task-timeout"
    ensures forall c, e :: KindText(Cancelled(c, e)) == "task-cancelled"
  {
  }

  /** A failure carries its reasons and a cancellation its cause, under these names; evidence is the same for all. */
  lemma DetailMembers(e: Event)
    ensures e.step.Failed? ==> Str("reason", e.step.reason) in EventFields(e)
    ensures e.step.Failed? && e.step.retryReason.Some? ==> Str("retryReason", e.step.retryReason.value) in EventFields(e)
    ensures e.step == Cancelled(Sigint, e.step.Evidence()) ==> Str("cause", "sigint") in EventFields(e)
    ensures e.step == Cancelled(Sentinel, e.step.Evidence()) ==> Str("cause", "sentinel") in EventFields(e)
    ensures e.step == Cancelled(Abort, e.step.Evidence()) ==> Str("cause", "abort") in EventFields(e)
  {
    var c, d := CommonFields(e), DetailFields(e.step);
    assert forall f | f in d :: f in c + d;
    if e.step.Failed? || e.step.Cancelled? { assert d[0] in d; }
    if e.step.Failed? && e.step.retryReason.Some? { assert d[1] == Str("retryReason", e.step.retryReason.value); }
  }

  /** The seven common members, the kind's own, and nothing else. */
  lemma MemberCount(e: Event)
    ensures J.DistinctKeys(EventFields(e))
    ensures |EventFields(e)| == 7
      + (if e.step.Failed? || e.step.Cancelled? then 1 else 0)
      + (if e.step.Failed? && e.step.retryReason.Some? then 1 else 0)
      + (if e.step.Evidence().Some? then 1 else 0)
  {
    EventJsonValid(e);
  }

  lemma EvidenceMember(e: Event)
    ensures e.step.Evidence().Some? ==>
      var a := e.step.Evidence().value;
      J.Field("evidenceArtifact", J.Object([Str("stage", a.stage), Str("kind", a.kind), Str("uri", a.uri),
                                            Str("description", a.description)])) in EventFields(e)
  {
    var c, d := CommonFields(e), DetailFields(e.step);
    if e.step.Evidence().Some? {
      assert d[|d| - 1] == J.Field("evidenceArtifact", ArtifactJson(e.step.Evidence().value));
      assert (c + d)[|c| + |d| - 1] == d[|d| - 1];
    }
  }
}
