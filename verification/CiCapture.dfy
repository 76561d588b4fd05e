/** CI capture: the verdict over required checks, the poll generator, and the driver that
    logs each poll and folds it into the delivery result with its bounded window. */
module CiCapture {
  import opened Prelude

  // ---------- computeCiVerdict ----------

  datatype CheckRun = CheckRun(name: string, status: string, conclusion: Option<string>)

  datatype Verdict = Pass | Fail | Pending | NoChecksConfigured

  predicate Failing(run: CheckRun) {
    run.conclusion.Some? && run.conclusion.value in ["failure", "cancelled", "timed_out", "action_required"]
  }

  predicate Passing(run: CheckRun) {
    run.conclusion.Some? && run.conclusion.value in ["success", "neutral", "skipped"]
  }

  predicate Completed(run: CheckRun) { run.status == "completed" }

  /** Position `i` holds the first run of that name. */
  predicate IsFirst(runs: seq<CheckRun>, name: string, i: int) {
    0 <= i < |runs| && runs[i].name == name && forall j :: 0 <= j < i ==> runs[j].name != name
  }

  function FirstRun(runs: seq<CheckRun>, name: string): (r: Option<CheckRun>)
    ensures r.None? <==> forall i :: 0 <= i < |runs| ==> runs[i].name != name
    ensures r.Some? ==> exists i :: IsFirst(runs, name, i) && runs[i] == r.value
  {
    if runs == [] then None
    else if runs[0].name == name then assert IsFirst(runs, name, 0); Some(runs[0])
    else
      var rest := FirstRun(runs[1..], name);
      rest
  }

  predicate Reported(runs: seq<CheckRun>, name: string) {
    FirstRun(runs, name).Some? && Completed(FirstRun(runs, name).value)
  }

  predicate AllReported(runs: seq<CheckRun>, required: seq<string>) {
    forall i :: 0 <= i < |required| ==> Reported(runs, required[i])
  }

  predicate AnyFailing(runs: seq<CheckRun>, required: seq<string>) {
    exists i :: 0 <= i < |required| && FirstRun(runs, required[i]).Some? && Failing(FirstRun(runs, required[i]).value)
  }

  predicate AllPassing(runs: seq<CheckRun>, required: seq<string>) {
    forall i :: 0 <= i < |required| ==> FirstRun(runs, required[i]).Some? && Passing(FirstRun(runs, required[i]).value)
  }

  function VerdictOf(runs: seq<CheckRun>, required: seq<string>): Verdict {
    if required == [] then NoChecksConfigured
    else if !AllReported(runs, required) then Pending
    else if AnyFailing(runs, required) then Fail
    else if AllPassing(runs, required) then Pass
    else Pending
  }

  /** The first run of each required check, or that one of them is missing. */
  method CollectRequired(runs: seq<CheckRun>, required: seq<string>) returns (found: Option<seq<CheckRun>>)
    ensures found.None? <==> exists i :: 0 <= i < |required| && FirstRun(runs, required[i]).None?
    ensures found.Some? ==> |found.value| == |required|
    ensures found.Some? ==> forall i :: 0 <= i < |required| ==> FirstRun(runs, required[i]) == Some(found.value[i])
  {
    var collected: seq<CheckRun> := [];
    for i := 0 to |required|
      invariant |collected| == i
      invariant forall k :: 0 <= k < i ==> FirstRun(runs, required[k]) == Some(collected[k])
    {
      var run := FirstRun(runs, required[i]);
      if run.None? { return None; }
      collected := collected + [run.value];
    }
    return Some(collected);
  }

  method ComputeCiVerdict(runs: seq<CheckRun>, required: seq<string>) returns (verdict: Verdict)
    ensures verdict == VerdictOf(runs, required)
  {
    if |required| == 0 { return NoChecksConfigured; }
    var found := CollectRequired(runs, required);
    if found.None? {
      assert !AllReported(runs, required);
      return Pending;
    }
    var collected := found.value;
    if exists k :: 0 <= k < |collected| && !Completed(collected[k]) {
      var k :| 0 <= k < |collected| && !Completed(collected[k]);
      assert !Reported(runs, required[k]);
      return Pending;
    }
    assert AllReported(runs, required);
    if exists k :: 0 <= k < |collected| && Failing(collected[k]) {
      var k :| 0 <= k < |collected| && Failing(collected[k]);
      assert FirstRun(runs, required[k]).Some? && Failing(FirstRun(runs, required[k]).value);
      return Fail;
    }
    assert !AnyFailing(runs, required);
    if forall k :: 0 <= k < |collected| ==> Passing(collected[k]) { return Pass; }
    ghost var k :| 0 <= k < |collected| && !Passing(collected[k]);
    assert !Passing(FirstRun(runs, required[k]).value);
    return Pending;
  }

  /** The first run listed for the check is completed and passing; completed and failing; completed. */
  ghost predicate FirstPasses(runs: seq<CheckRun>, name: string) {
    exists i :: IsFirst(runs, name, i) && Completed(runs[i]) && Passing(runs[i])
  }

  ghost predicate FirstFails(runs: seq<CheckRun>, name: string) {
    exists i :: IsFirst(runs, name, i) && Completed(runs[i]) && Failing(runs[i])
  }

  ghost predicate FirstCompleted(runs: seq<CheckRun>, name: string) {
    exists i :: IsFirst(runs, name, i) && Completed(runs[i])
  }

  lemma FirstIs(runs: seq<CheckRun>, name: string)
    ensures FirstCompleted(runs, name) <==> Reported(runs, name)
    ensures FirstPasses(runs, name) <==> Reported(runs, name) && Passing(FirstRun(runs, name).value)
    ensures FirstFails(runs, name) <==> Reported(runs, name) && Failing(FirstRun(runs, name).value)
  {
    if FirstRun(runs, name).Some? {
      var i :| IsFirst(runs, name, i) && runs[i] == FirstRun(runs, name).value;
      assert forall k :: IsFirst(runs, name, k) ==> k == i;
    }
  }

  lemma VerdictCases(runs: seq<CheckRun>, required: seq<string>)
    requires required != []
    ensures VerdictOf(runs, required) == Pass <==> forall k :: 0 <= k < |required| ==> FirstPasses(runs, required[k])
    ensures VerdictOf(runs, required) == Fail <==>
      (forall k :: 0 <= k < |required| ==> FirstCompleted(runs, required[k]))
      && exists k :: 0 <= k < |required| && FirstFails(runs, required[k])
    ensures VerdictOf(runs, required) != NoChecksConfigured
  {
    forall k | 0 <= k < |required|
      ensures FirstCompleted(runs, required[k]) <==> Reported(runs, required[k])
      ensures FirstPasses(runs, required[k]) <==> Reported(runs, required[k]) && Passing(FirstRun(runs, required[k]).value)
      ensures FirstFails(runs, required[k]) <==> Reported(runs, required[k]) && Failing(FirstRun(runs, required[k]).value)
      ensures FirstRun(runs, required[k]).Some? ==>
        !(Passing(FirstRun(runs, required[k]).value) && Failing(FirstRun(runs, required[k]).value))
    {
      FirstIs(runs, required[k]);
    }
  }

  /** In terms of the runs as listed: pass means that for every required name the first run of
      that name is completed and passing; fail, that all are completed and one fails; pending,
      that one is missing, not completed, or neither passing nor failing while none fails; and
      no verdict is computed exactly when nothing is required. */
  lemma VerdictMeaning(runs: seq<CheckRun>, required: seq<string>)
    ensures VerdictOf(runs, required) == NoChecksConfigured <==> required == []
    ensures VerdictOf(runs, required) == Pass <==>
      required != [] && forall k :: 0 <= k < |required| ==> FirstPasses(runs, required[k])
    ensures VerdictOf(runs, required) == Fail <==>
      (forall k :: 0 <= k < |required| ==> FirstCompleted(runs, required[k]))
      && exists k :: 0 <= k < |required| && FirstFails(runs, required[k])
    ensures VerdictOf(runs, required) == Pending <==>
      || (exists k :: 0 <= k < |required| && !FirstCompleted(runs, required[k]))
      || ((exists k :: 0 <= k < |required| && !FirstPasses(runs, required[k]))
          && forall k :: 0 <= k < |required| ==> !FirstFails(runs, required[k]))
  {
    if required != [] {
      VerdictCases(runs, required);
      assert forall k :: 0 <= k < |required| && FirstPasses(runs, required[k]) ==> FirstCompleted(runs, required[k]);
    }
  }

  /** The run at `i` is the first of its name, it is completed, and it concludes with one of `conclusions`. */
  ghost predicate FirstConcludes(runs: seq<CheckRun>, name: string, i: int, conclusions: seq<string>) {
    && 0 <= i < |runs| && runs[i].name == name && (forall j :: 0 <= j < i ==> runs[j].name != name)
    && runs[i].status == "completed" && runs[i].conclusion.Some? && runs[i].conclusion.value in conclusions
  }

  /** The run at `i` is the first of its name and it is completed. */
  ghost predicate FirstIsCompleted(runs: seq<CheckRun>, name: string, i: int) {
    0 <= i < |runs| && runs[i].name == name && (forall j :: 0 <= j < i ==> runs[j].name != name) && runs[i].status == "completed"
  }

  ghost predicate FirstRunConcludes(runs: seq<CheckRun>, name: string, conclusions: seq<string>) {
    exists i :: FirstConcludes(runs, name, i, conclusions)
  }

  ghost predicate FirstRunCompleted(runs: seq<CheckRun>, name: string) {
    exists i :: FirstIsCompleted(runs, name, i)
  }

  lemma CompletedFirst(runs: seq<CheckRun>, name: string)
    ensures FirstCompleted(runs, name) <==> FirstRunCompleted(runs, name)
  {
    if i :| IsFirst(runs, name, i) && Completed(runs[i]) { assert FirstIsCompleted(runs, name, i); }
    if i :| FirstIsCompleted(runs, name, i) { assert IsFirst(runs, name, i) && Completed(runs[i]); }
  }

  lemma PassConclusions(runs: seq<CheckRun>, name: string)
    ensures FirstPasses(runs, name) <==> FirstRunConcludes(runs, name, ["success", "neutral", "skipped"])
  {
    if i :| IsFirst(runs, name, i) && Completed(runs[i]) && Passing(runs[i]) {
      assert FirstConcludes(runs, name, i, ["success", "neutral", "skipped"]);
    }
    if i :| FirstConcludes(runs, name, i, ["success", "neutral", "skipped"]) {
      assert IsFirst(runs, name, i) && Completed(runs[i]) && Passing(runs[i]);
    }
  }

  lemma FailConclusions(runs: seq<CheckRun>, name: string)
    ensures FirstFails(runs, name) <==>
      FirstRunConcludes(runs, name, ["failure", "cancelled", "timed_out", "action_required"])
  {
    if i :| IsFirst(runs, name, i) && Completed(runs[i]) && Failing(runs[i]) {
      assert FirstConcludes(runs, name, i, ["failure", "cancelled", "timed_out", "action_required"]);
    }
    if i :| FirstConcludes(runs, name, i, ["failure", "cancelled", "timed_out", "action_required"]) {
      assert IsFirst(runs, name, i) && Completed(runs[i]) && Failing(runs[i]);
    }
  }

  /** The verdict by the words the checks report: pass if every required check's first run is
      completed with one of three conclusions; fail if all are completed and one has one of
      four; pending if one is missing or not completed, or if none has one of the four and one
      has no conclusion or yet another. */
  lemma VerdictByConclusions(runs: seq<CheckRun>, required: seq<string>)
    ensures VerdictOf(runs, required) == NoChecksConfigured <==> required == []
    ensures VerdictOf(runs, required) == Pass <==>
      && required != []
      && forall k :: 0 <= k < |required| ==> FirstRunConcludes(runs, required[k], ["success", "neutral", "skipped"])
    ensures VerdictOf(runs, required) == Fail <==>
      && (forall k :: 0 <= k < |required| ==> FirstRunCompleted(runs, required[k]))
      && exists k :: 0 <= k < |required|
           && FirstRunConcludes(runs, required[k], ["failure", "cancelled", "timed_out", "action_required"])
    ensures VerdictOf(runs, required) == Pending <==>
      || (exists k :: 0 <= k < |required| && !FirstRunCompleted(runs, required[k]))
      || ((exists k :: 0 <= k < |required| && !FirstRunConcludes(runs, required[k], ["success", "neutral", "skipped"]))
          && forall k :: 0 <= k < |required| ==>
               !FirstRunConcludes(runs, required[k], ["failure", "cancelled", "timed_out", "action_required"]))
  {
    var pass, fail := ["success", "neutral", "skipped"], ["failure", "cancelled", "timed_out", "action_required"];
    VerdictMeaning(runs, required);
    forall name
      ensures FirstPasses(runs, name) <==> FirstRunConcludes(runs, name, pass)
      ensures FirstFails(runs, name) <==> FirstRunConcludes(runs, name, fail)
      ensures FirstCompleted(runs, name) <==> FirstRunCompleted(runs, name)
    {
      PassConclusions(runs, name);
      FailConclusions(runs, name);
      CompletedFirst(runs, name);
    }
  }

  lemma {:induction false} FirstRunStands(runs: seq<CheckRun>, more: seq<CheckRun>, name: string)
    requires FirstRun(runs, name).Some?
    ensures FirstRun(runs + more, name) == FirstRun(runs, name)
  {
    assert (runs + more)[0] == runs[0] && (runs + more)[1..] == runs[1..] + more;
    if runs[0].name != name { FirstRunStands(runs[1..], more, name); }
  }

  /** A final verdict is not revised by runs listed later, not even by re-runs of the same checks. */
  lemma VerdictStands(runs: seq<CheckRun>, more: seq<CheckRun>, required: seq<string>)
    requires VerdictOf(runs, required) != Pending
    ensures VerdictOf(runs + more, required) == VerdictOf(runs, required)
  {
    if required != [] {
      forall i | 0 <= i < |required| ensures FirstRun(runs + more, required[i]) == FirstRun(runs, required[i]) {
        assert Reported(runs, required[i]);
        FirstRunStands(runs, more, required[i]);
      }
    }
  }

  /** The runs of the required checks, in their order. */
  function Relevant(runs: seq<CheckRun>, required: seq<string>): seq<CheckRun> {
    if runs == [] then []
    else (if runs[0].name in required then [runs[0]] else []) + Relevant(runs[1..], required)
  }

  lemma {:induction false} FirstRelevant(runs: seq<CheckRun>, required: seq<string>, name: string)
    requires name in required
    ensures FirstRun(Relevant(runs, required), name) == FirstRun(runs, name)
  {
    if runs != [] {
      FirstRelevant(runs[1..], required, name);
      var rest := Relevant(runs[1..], required);
      if runs[0].name in required {
        assert Relevant(runs, required)[0] == runs[0] && Relevant(runs, required)[1..] == rest;
      } else {
        assert Relevant(runs, required) == rest;
      }
    }
  }

  /** Runs of checks that are not required never matter. */
  lemma OnlyRequiredMatter(runs: seq<CheckRun>, required: seq<string>)
    ensures VerdictOf(Relevant(runs, required), required) == VerdictOf(runs, required)
  {
    forall i | 0 <= i < |required| ensures FirstRun(Relevant(runs, required), required[i]) == FirstRun(runs, required[i]) {
      FirstRelevant(runs, required, required[i]);
    }
  }

  // ---------- pollCiStatus ----------

  datatype Reason = TimeoutReason | Sigint | Sentinel | OtherReason

  datatype Signal = Live | Aborted(reason: Reason)

  datatype PollSnapshot = PollSnapshot(at: string, checks: seq<CheckRun>, verdict: Verdict, terminal: bool)

  /** What one turn of the poll loop meets: check runs; or an error, the signal as it then
      stands and the time it is handled. An abort before the request or during the sleep is
      an error named AbortError. */
  datatype Response =
    | Checks(at: string, runs: seq<CheckRun>, closing: string)
    | Error(abortLike: bool, signal: Signal, now: string)

  /** What the generator hands its consumer; `closing` is the time at which a closing event would be stamped. */
  datatype Step =
    | Yields(snap: PollSnapshot, closing: string)
    | Throws(abortLike: bool, signal: Signal, now: string)
    | Ends

  predicate Final(v: Verdict) { v != Pending }

  function SnapshotOf(at: string, runs: seq<CheckRun>, required: seq<string>): PollSnapshot {
    PollSnapshot(at, runs, VerdictOf(runs, required), Final(VerdictOf(runs, required)))
  }

  /** The generator's steps; running out of responses is a poll still waiting. */
  function PollSteps(responses: seq<Response>, required: seq<string>): seq<Step> {
    if responses == [] then []
    else
      match responses[0]
      case Error(abortLike, signal, now) => [Throws(abortLike, signal, now), Ends]
      case Checks(at, runs, closing) =>
        var snap := SnapshotOf(at, runs, required);
        [Yields(snap, closing)] + if snap.terminal then [Ends] else PollSteps(responses[1..], required)
  }

  class PollCiStatus {
    const responses: seq<Response>
    const required: seq<string>
    var next: nat
    var done: bool

    constructor (responses: seq<Response>, required: seq<string>)
      ensures Valid() && Upcoming() == PollSteps(responses, required)
    {
      this.responses, this.required, next, done := responses, required, 0, false;
    }

    predicate Valid() reads this { next <= |responses| }

    function Upcoming(): seq<Step>
      reads this
      requires Valid()
    {
      if done then [Ends] else PollSteps(responses[next..], required)
    }

    /** Runs the generator to its next step; nothing when it is still waiting. */
    method Next() returns (step: Option<Step>)
      requires Valid()
      modifies this
      ensures Valid()
      ensures step == None <==> old(Upcoming()) == []
      ensures step.Some? ==> step.value == old(Upcoming())[0]
      ensures Upcoming() == if step.None? || step == Some(Ends) then old(Upcoming()) else old(Upcoming())[1..]
    {
      if done { return Some(Ends); }
      if next == |responses| { return None; }
      var response := responses[next];
      assert responses[next..][1..] == responses[next + 1..];
      next := next + 1;
      match response {
        case Error(abortLike, signal, now) =>
          done := true;
          return Some(Throws(abortLike, signal, now));
        case Checks(at, runs, closing) =>
          var verdict := ComputeCiVerdict(runs, required);
          var terminal := verdict == Pass || verdict == Fail || verdict == NoChecksConfigured;
          done := terminal;
          return Some(Yields(PollSnapshot(at, runs, verdict, terminal), closing));
      }
    }
  }

  // ---------- the delivery result and its window ----------

  datatype Stored = Stored(at: string, checks: seq<CheckRun>)

  datatype CiVerdict = Ci(verdict: Verdict) | TimeoutPending | Cancelled

  /** `identity` stands for the fields capture carries along. */
  datatype DeliveryResult = DeliveryResult(identity: string, ciVerdict: CiVerdict, updatedAt: string,
                                           snapshots: seq<Stored>, exhaustedAt: Option<string>)

  const WINDOW := 11

  /** All snapshots while there are at most eleven, else the first and the last ten. */
  function Roll(h: seq<Stored>): seq<Stored> {
    if |h| <= WINDOW then h else [h[0]] + h[|h| - (WINDOW - 1)..]
  }

  function Merge(r: DeliveryResult, snap: PollSnapshot): DeliveryResult {
    r.(ciVerdict := Ci(snap.verdict), updatedAt := snap.at, snapshots := Roll(r.snapshots + [Stored(snap.at, snap.checks)]))
  }

  function TimedOutAt(r: DeliveryResult, now: string): DeliveryResult {
    r.(ciVerdict := TimeoutPending, updatedAt := now, exhaustedAt := Some(now))
  }

  function CancelledAt(r: DeliveryResult, now: string): DeliveryResult {
    r.(ciVerdict := Cancelled, updatedAt := now)
  }

  // ---------- the two files ----------

  datatype CancelReason = ByTimeout | BySigint | BySentinel | ByParentAbort

  /** What the delivery itself logs before capture starts. */
  datatype DeliveryKind =
    | PrCreated(prNumber: int, prUrl: string, headSha: string)
    | CommentPosted(commentKind: string, commentId: int)
    | CommentFailed(commentKind: string, reason: string)

  datatype CiEvent =
    | SnapshotEvent(at: string, checks: seq<CheckRun>)
    | TerminalEvent(at: string, verdict: Verdict)
    | TimeoutEvent(at: string)
    | CancelledEvent(at: string, reason: CancelReason)
    | DeliveryEvent(at: string, kind: DeliveryKind)

  /** One durable step on the delivery folder: an appended event, or the result file replaced. */
  datatype Op = Append(event: CiEvent) | Write(result: DeliveryResult)

  /** The event log and the result file. */
  datatype Disk = Disk(events: seq<CiEvent>, file: Option<DeliveryResult>)

  function Do(d: Disk, op: Op): Disk {
    match op
    case Append(e) => d.(events := d.events + [e])
    case Write(r) => d.(file := Some(r))
  }

  function After(d: Disk, ops: seq<Op>): Disk
    decreases |ops|
  {
    if ops == [] then d else After(Do(d, ops[0]), ops[1..])
  }

  lemma {:induction false} AfterConcat(d: Disk, a: seq<Op>, b: seq<Op>)
    ensures After(d, a + b) == After(After(d, a), b)
    decreases |a|
  {
    if a == [] {
      assert a + b == b;
    } else {
      assert (a + b)[0] == a[0] && (a + b)[1..] == a[1..] + b;
      AfterConcat(Do(d, a[0]), a[1..], b);
    }
  }

  lemma OneMore(d: Disk, ops: seq<Op>, op: Op)
    ensures After(d, ops + [op]) == Do(After(d, ops), op)
  {
    AfterConcat(d, ops, [op]);
  }

  lemma TwoOps(d: Disk, ops: seq<Op>)
    requires |ops| == 2
    ensures After(d, ops) == Do(Do(d, ops[0]), ops[1])
  {
    assert ops[1..][0] == ops[1] && ops[1..][1..] == [];
    assert After(Do(d, ops[0]), ops[1..]) == Do(Do(d, ops[0]), ops[1]);
  }

  // ---------- drivePollCiStatus ----------

  datatype Outcome = Returned(result: DeliveryResult) | Thrown | Waiting

  datatype Drive = Drive(ops: seq<Op>, outcome: Outcome)

  function TerminalVerdict(v: Verdict): Verdict { if v == Pending then Fail else v }

  function CancelReasonOf(signal: Signal): CancelReason {
    match signal
    case Live => ByParentAbort
    case Aborted(reason) =>
      match reason
      case TimeoutReason => ByTimeout
      case Sigint => BySigint
      case Sentinel => BySentinel
      case OtherReason => ByParentAbort
  }

  function PersistAbort(r: DeliveryResult, signal: Signal, now: string): Drive {
    if signal == Aborted(TimeoutReason) then
      Drive([Append(TimeoutEvent(now)), Write(TimedOutAt(r, now))], Returned(TimedOutAt(r, now)))
    else
      Drive([Append(CancelledEvent(now, CancelReasonOf(signal))), Write(CancelledAt(r, now))], Returned(CancelledAt(r, now)))
  }

  function Polled(r: DeliveryResult, snap: PollSnapshot): seq<Op> {
    [Append(SnapshotEvent(snap.at, snap.checks)), Write(Merge(r, snap))]
  }

  function Then(ops: seq<Op>, rest: Drive): Drive { rest.(ops := ops + rest.ops) }

  function Follow(r: DeliveryResult, steps: seq<Step>): Drive
    decreases |steps|
  {
    if steps == [] then Drive([], Waiting)
    else
      match steps[0]
      case Ends => Drive([], Returned(r))
      case Throws(abortLike, signal, now) =>
        if !abortLike && signal == Live then Drive([], Thrown) else PersistAbort(r, signal, now)
      case Yields(snap, closing) =>
        if snap.terminal then
          Drive(Polled(r, snap) + [Append(TerminalEvent(closing, TerminalVerdict(snap.verdict)))], Returned(Merge(r, snap)))
        else Then(Polled(r, snap), Follow(Merge(r, snap), steps[1..]))
  }

  /** The whole capture, from the signal as it stands at the start. */
  function Capture(initial: DeliveryResult, start: Signal, now: string, steps: seq<Step>): Drive {
    if start.Aborted? then PersistAbort(initial, start, now) else Follow(initial, steps)
  }

  /** The poll goes on after this step. */
  predicate GoesOn(step: Step) { step.Yields? && !step.snap.terminal }

  class DeliveryFolder {
    var events: seq<CiEvent>
    var resultFile: Option<DeliveryResult>
    ghost var history: seq<Op>

    constructor (events: seq<CiEvent>, resultFile: Option<DeliveryResult>)
      ensures Contents() == Disk(events, resultFile) && history == []
    {
      this.events, this.resultFile, history := events, resultFile, [];
    }

    ghost function Contents(): Disk reads this { Disk(events, resultFile) }

    method AppendJsonl(e: CiEvent)
      modifies this
      ensures history == old(history) + [Append(e)]
      ensures Contents() == Do(old(Contents()), Append(e))
    {
      events := events + [e];
      history := history + [Append(e)];
    }

    method WriteJsonAtomic(r: DeliveryResult)
      modifies this
      ensures history == old(history) + [Write(r)]
      ensures Contents() == Do(old(Contents()), Write(r))
    {
      resultFile := Some(r);
      history := history + [Write(r)];
    }

    method Abort(r: DeliveryResult, signal: Signal, now: string) returns (result: DeliveryResult)
      modifies this
      ensures history == old(history) + PersistAbort(r, signal, now).ops
      ensures Contents() == After(old(Contents()), PersistAbort(r, signal, now).ops)
      ensures PersistAbort(r, signal, now).outcome == Returned(result)
    {
      if signal == Aborted(TimeoutReason) {
        result := TimedOutAt(r, now);
        AppendJsonl(TimeoutEvent(now));
      } else {
        result := CancelledAt(r, now);
        AppendJsonl(CancelledEvent(now, CancelReasonOf(signal)));
      }
      WriteJsonAtomic(result);
      TwoOps(old(Contents()), PersistAbort(r, signal, now).ops);
    }

    /** One polled snapshot: the event first, then the result it leads to. */
    method Record(r: DeliveryResult, snap: PollSnapshot) returns (result: DeliveryResult)
      modifies this
      ensures result == Merge(r, snap)
      ensures history == old(history) + Polled(r, snap)
      ensures Contents() == After(old(Contents()), Polled(r, snap))
    {
      AppendJsonl(SnapshotEvent(snap.at, snap.checks));
      result := Merge(r, snap);
      WriteJsonAtomic(result);
      TwoOps(old(Contents()), Polled(r, snap));
    }

    /** The driver's reaction to the step at which it stops, if there is one. */
    method Conclude(r: DeliveryResult, last: seq<Step>) returns (outcome: Outcome)
      requires |last| <= 1 && (last == [] || !GoesOn(last[0]))
      modifies this
      ensures outcome == Follow(r, last).outcome
      ensures history == old(history) + Follow(r, last).ops
      ensures Contents() == After(old(Contents()), Follow(r, last).ops)
    {
      if last == [] { return Waiting; }
      match last[0] {
        case Ends => return Returned(r);
        case Throws(abortLike, signal, now) =>
          if !abortLike && signal == Live { return Thrown; }
          var aborted := Abort(r, signal, now);
          return Returned(aborted);
        case Yields(snap, closing) =>
          var closed := TerminalEvent(closing, TerminalVerdict(snap.verdict));
          OneMore(Contents(), Polled(r, snap), Append(closed));
          var result := Record(r, snap);
          AppendJsonl(closed);
          return Returned(result);
      }
    }
  }

  /** `ops` have been done and `result` and `steps` are what is left of `whole`. */
  ghost predicate Underway(whole: Drive, ops: seq<Op>, result: DeliveryResult, steps: seq<Step>) {
    whole == Then(ops, Follow(result, steps))
  }

  /** Since `before` and `disk`, exactly `ops` have been done. */
  ghost predicate Recorded(before: seq<Op>, disk: Disk, ops: seq<Op>, history: seq<Op>, contents: Disk) {
    history == before + ops && contents == After(disk, ops)
  }

  lemma RecordMore(before: seq<Op>, disk: Disk, ops: seq<Op>, more: seq<Op>, history: seq<Op>, contents: Disk)
    requires Recorded(before, disk, ops, history, contents)
    ensures Recorded(before, disk, ops + more, history + more, After(contents, more))
  {
    AfterConcat(disk, ops, more);
  }

  lemma AnotherPoll(whole: Drive, ops: seq<Op>, result: DeliveryResult, steps: seq<Step>)
    requires Underway(whole, ops, result, steps) && steps != [] && GoesOn(steps[0])
    ensures Underway(whole, ops + Polled(result, steps[0].snap), Merge(result, steps[0].snap), steps[1..])
  {
  }

  lemma LastStep(whole: Drive, ops: seq<Op>, result: DeliveryResult, steps: seq<Step>)
    requires Underway(whole, ops, result, steps) && (steps == [] || !GoesOn(steps[0]))
    ensures whole == Then(ops, Follow(result, if steps == [] then [] else [steps[0]]))
  {
  }

  method DrivePollCiStatus(initial: DeliveryResult, poll: PollCiStatus, folder: DeliveryFolder, start: Signal, now: string)
    returns (outcome: Outcome)
    requires poll.Valid()
    modifies poll, folder
    ensures outcome == Capture(initial, start, now, old(poll.Upcoming())).outcome
    ensures folder.history == old(folder.history) + Capture(initial, start, now, old(poll.Upcoming())).ops
    ensures folder.Contents() == After(old(folder.Contents()), Capture(initial, start, now, old(poll.Upcoming())).ops)
  {
    if start.Aborted? {
      var aborted := folder.Abort(initial, start, now);
      return Returned(aborted);
    }
    outcome := FollowPoll(initial, poll, folder);
  }

  /** The driver's loop over the poll. */
  method FollowPoll(initial: DeliveryResult, poll: PollCiStatus, folder: DeliveryFolder) returns (outcome: Outcome)
    requires poll.Valid()
    modifies poll, folder
    ensures outcome == Follow(initial, old(poll.Upcoming())).outcome
    ensures folder.history == old(folder.history) + Follow(initial, old(poll.Upcoming())).ops
    ensures folder.Contents() == After(old(folder.Contents()), Follow(initial, old(poll.Upcoming())).ops)
  {
    var result := initial;
    ghost var before, disk, whole := folder.history, folder.Contents(), Follow(initial, poll.Upcoming());
    ghost var ops: seq<Op> := [];
    while true
      invariant poll.Valid()
      invariant Recorded(before, disk, ops, folder.history, folder.Contents())
      invariant Underway(whole, ops, result, poll.Upcoming())
      decreases |poll.Upcoming()|
    {
      ghost var steps := poll.Upcoming();
      var step := poll.Next();
      if step.None? || !GoesOn(step.value) {
        var last := if step.None? then [] else [step.value];
        LastStep(whole, ops, result, steps);
        RecordMore(before, disk, ops, Follow(result, last).ops, folder.history, folder.Contents());
        outcome := folder.Conclude(result, last);
        return;
      }
      AnotherPoll(whole, ops, result, steps);
      RecordMore(before, disk, ops, Polled(result, step.value.snap), folder.history, folder.Contents());
      ops := ops + Polled(result, step.value.snap);
      result := folder.Record(result, step.value.snap);
    }
  }

  // ---------- the window ----------

  /** Rolling a rolled window with one more snapshot is rolling the full history. */
  lemma RollIncremental(h: seq<Stored>, x: Stored)
    ensures Roll(Roll(h) + [x]) == Roll(h + [x])
  {
    if |h| > WINDOW {
      var n := |h|;
      assert Roll(h)[2..] == h[n - 9..] by {
        DropTwo(h[0], h[n - 10..]);
        DropOneMore(h, n - 10);
      }
      LastOnes(h, x, n - 9);
      LastOnes(Roll(h), x, 2);
      assert |Roll(h) + [x]| == 12 && (Roll(h) + [x])[0] == h[0] && (h + [x])[0] == h[0];
    }
  }

  lemma LastOnes(h: seq<Stored>, x: Stored, k: nat)
    requires k <= |h|
    ensures (h + [x])[k..] == h[k..] + [x]
  {
  }

  lemma DropTwo(a: Stored, t: seq<Stored>)
    requires t != []
    ensures ([a] + t)[2..] == t[1..]
  {
  }

  lemma DropOneMore(h: seq<Stored>, k: nat)
    requires k < |h|
    ensures h[k..][1..] == h[k + 1..]
  {
  }

  /** The snapshots handed over before the capture stops. */
  function Seen(steps: seq<Step>): seq<Stored> {
    if steps == [] || !steps[0].Yields? then []
    else
      var x := Stored(steps[0].snap.at, steps[0].snap.checks);
      if steps[0].snap.terminal then [x] else [x] + Seen(steps[1..])
  }

  /** The result a capture last held: returned, or last written. */
  function Held(r: DeliveryResult, steps: seq<Step>): DeliveryResult
    decreases |steps|
  {
    if steps == [] then r
    else
      match steps[0]
      case Ends => r
      case Throws(abortLike, signal, now) =>
        if !abortLike && signal == Live then r
        else if signal == Aborted(TimeoutReason) then TimedOutAt(r, now)
        else CancelledAt(r, now)
      case Yields(snap, _) => if snap.terminal then Merge(r, snap) else Held(Merge(r, snap), steps[1..])
  }

  lemma {:induction false} WindowFrom(r: DeliveryResult, h: seq<Stored>, steps: seq<Step>)
    requires r.snapshots == Roll(h)
    ensures Held(r, steps).snapshots == Roll(h + Seen(steps))
    decreases |steps|
  {
    if steps != [] && steps[0].Yields? {
      var snap := steps[0].snap;
      var x := Stored(snap.at, snap.checks);
      RollIncremental(h, x);
      if !snap.terminal {
        WindowFrom(Merge(r, snap), h + [x], steps[1..]);
        assert h + [x] + Seen(steps[1..]) == h + Seen(steps);
      }
    } else {
      assert h + Seen(steps) == h;
    }
  }

  lemma {:induction false} ReturnsHeld(r: DeliveryResult, steps: seq<Step>)
    ensures Follow(r, steps).outcome.Returned? ==> Follow(r, steps).outcome.result == Held(r, steps)
    ensures After(Disk([], Some(r)), Follow(r, steps).ops).file == Some(Held(r, steps))
    decreases |steps|
  {
    if steps != [] && steps[0].Yields? {
      var snap := steps[0].snap;
      var m := Merge(r, snap);
      ReturnsHeld(m, steps[1..]);
      TwoOps(Disk([], Some(r)), Polled(r, snap));
      if snap.terminal {
        AfterConcat(Disk([], Some(r)), Polled(r, snap), Follow(r, steps).ops[2..]);
        assert Follow(r, steps).ops == Polled(r, snap) + Follow(r, steps).ops[2..];
      } else {
        AfterConcat(Disk([], Some(r)), Polled(r, snap), Follow(m, steps[1..]).ops);
        FileAlone(After(Disk([], Some(r)), Polled(r, snap)).events, Some(m), Follow(m, steps[1..]).ops);
      }
    } else if steps != [] && steps[0].Throws? {
      TwoOps(Disk([], Some(r)), PersistAbort(r, steps[0].signal, steps[0].now).ops);
    }
  }

  /** Neither file's history depends on the other's earlier contents. */
  lemma {:induction false} FileAlone(events: seq<CiEvent>, file: Option<DeliveryResult>, ops: seq<Op>)
    ensures After(Disk(events, file), ops) == Disk(events + After(Disk([], file), ops).events, After(Disk([], file), ops).file)
    decreases |ops|
  {
    if ops != [] {
      var d := Do(Disk([], file), ops[0]);
      FileAlone(Do(Disk(events, file), ops[0]).events, d.file, ops[1..]);
      FileAlone(d.events, d.file, ops[1..]);
    }
  }

  /** However long the poll, the stored window is the one-shot rule on the full history: it
      starts rolled, or at least one poll has come in. */
  lemma WindowIsOneShot(r: DeliveryResult, steps: seq<Step>)
    requires |r.snapshots| <= WINDOW || Seen(steps) != []
    ensures Held(r, steps).snapshots == Roll(r.snapshots + Seen(steps))
    ensures Follow(r, steps).outcome.Returned? ==> Follow(r, steps).outcome.result.snapshots == Roll(r.snapshots + Seen(steps))
  {
    ReturnsHeld(r, steps);
    if |r.snapshots| <= WINDOW {
      WindowFrom(r, r.snapshots, steps);
    } else {
      WindowOnceSeen(r, steps);
    }
  }

  lemma WindowOnceSeen(r: DeliveryResult, steps: seq<Step>)
    requires Seen(steps) != []
    ensures Held(r, steps).snapshots == Roll(r.snapshots + Seen(steps))
  {
    var h, snap := r.snapshots, steps[0].snap;
    var x, m := Stored(snap.at, snap.checks), Merge(r, snap);
    var all := h + Seen(steps);
    if snap.terminal {
      assert h + [x] == all;
    } else {
      assert (h + [x]) + Seen(steps[1..]) == all by {
        assert Seen(steps) == [x] + Seen(steps[1..]);
      }
      assert Held(m, steps[1..]).snapshots == Roll(all) by { WindowFrom(m, h + [x], steps[1..]); }
    }
  }

  // ---------- the log leads the result file by at most one event ----------

  /** The result that an event leads to; this needs the log and the required checks only. */
  function Fold(required: seq<string>, r: DeliveryResult, e: CiEvent): DeliveryResult {
    match e
    case SnapshotEvent(at, checks) => Merge(r, SnapshotOf(at, checks, required))
    case TerminalEvent(_, _) => r
    case TimeoutEvent(at) => TimedOutAt(r, at)
    case CancelledEvent(at, _) => CancelledAt(r, at)
    case DeliveryEvent(_, _) => r
  }

  function Rebuilt(required: seq<string>, r: DeliveryResult, events: seq<CiEvent>): DeliveryResult {
    if events == [] then r else Fold(required, Rebuilt(required, r, events[..|events| - 1]), events[|events| - 1])
  }

  /** The file written when the log held exactly `events`; before the first event it is as capture found it. */
  function FileAt(required: seq<string>, r: DeliveryResult, found: Option<DeliveryResult>, events: seq<CiEvent>): Option<DeliveryResult> {
    if events == [] then found else Some(Rebuilt(required, r, events))
  }

  /** The file reflects all events, or all but the last. */
  predicate LevelOrOneBehind(required: seq<string>, r: DeliveryResult, found: Option<DeliveryResult>, d: Disk) {
    || d.file == FileAt(required, r, found, d.events)
    || (d.events != [] && d.file == FileAt(required, r, found, d.events[..|d.events| - 1]))
  }

  lemma RebuiltSnoc(required: seq<string>, r: DeliveryResult, events: seq<CiEvent>, e: CiEvent)
    ensures Rebuilt(required, r, events + [e]) == Fold(required, Rebuilt(required, r, events), e)
  {
  }

  /** Appending an event and writing its result leaves both files level, having been at most one apart. */
  lemma OneEvent(required: seq<string>, r: DeliveryResult, found: Option<DeliveryResult>, d: Disk, e: CiEvent)
    requires d.file == FileAt(required, r, found, d.events)
    ensures LevelOrOneBehind(required, r, found, Do(d, Append(e)))
    ensures
      var w := Write(Fold(required, Rebuilt(required, r, d.events), e));
      Do(Do(d, Append(e)), w).file == FileAt(required, r, found, Do(Do(d, Append(e)), w).events)
  {
  }

  /** A prefix of append-then-write, and then some. */
  lemma PrefixOfPair(d: Disk, a: Op, w: Op, rest: seq<Op>, k: nat)
    requires k <= 2 + |rest|
    ensures k == 0 ==> After(d, ([a, w] + rest)[..k]) == d
    ensures k == 1 ==> After(d, ([a, w] + rest)[..k]) == Do(d, a)
    ensures k >= 2 ==> After(d, ([a, w] + rest)[..k]) == After(Do(Do(d, a), w), rest[..k - 2])
  {
    if k >= 2 {
      assert ([a, w] + rest)[..k] == [a, w] + rest[..k - 2];
      AfterConcat(d, [a, w], rest[..k - 2]);
      TwoOps(d, [a, w]);
    } else if k == 1 {
      assert ([a, w] + rest)[..k] == [a];
    }
  }

  lemma LevelAfterAbort(required: seq<string>, r: DeliveryResult, found: Option<DeliveryResult>, d: Disk,
                        signal: Signal, now: string, k: nat)
    requires d.file == FileAt(required, r, found, d.events)
    requires k <= |PersistAbort(Rebuilt(required, r, d.events), signal, now).ops|
    ensures LevelOrOneBehind(required, r, found, After(d, PersistAbort(Rebuilt(required, r, d.events), signal, now).ops[..k]))
  {
    var e := if signal == Aborted(TimeoutReason) then TimeoutEvent(now) else CancelledEvent(now, CancelReasonOf(signal));
    LevelWithinPair(required, r, found, d, e, k);
  }

  lemma LevelWithinPair(required: seq<string>, r: DeliveryResult, found: Option<DeliveryResult>, d: Disk, e: CiEvent, k: nat)
    requires d.file == FileAt(required, r, found, d.events) && k <= 2
    ensures LevelOrOneBehind(required, r, found, After(d, [Append(e), Write(Fold(required, Rebuilt(required, r, d.events), e))][..k]))
  {
    var w := Write(Fold(required, Rebuilt(required, r, d.events), e));
    assert [Append(e), w] + [] == [Append(e), w];
    PrefixOfPair(d, Append(e), w, [], k);
    OneEvent(required, r, found, d, e);
  }

  lemma {:induction false} LevelFrom(required: seq<string>, r: DeliveryResult, found: Option<DeliveryResult>, d: Disk,
                                     responses: seq<Response>, k: nat)
    requires d.file == FileAt(required, r, found, d.events)
    requires k <= |Follow(Rebuilt(required, r, d.events), PollSteps(responses, required)).ops|
    ensures LevelOrOneBehind(required, r, found,
              After(d, Follow(Rebuilt(required, r, d.events), PollSteps(responses, required)).ops[..k]))
    decreases |responses|
  {
    var now := Rebuilt(required, r, d.events);
    var ops := Follow(now, PollSteps(responses, required)).ops;
    if responses == [] {
    } else if responses[0].Error? {
      if ops != [] { LevelAfterAbort(required, r, found, d, responses[0].signal, responses[0].now, k); }
    } else {
      LevelFromChecks(required, r, found, d, responses, k);
    }
  }

  /** What follows the first polled pair. */
  function Later(required: seq<string>, r: DeliveryResult, responses: seq<Response>): seq<Op>
    requires responses != [] && responses[0].Checks?
  {
    var snap := SnapshotOf(responses[0].at, responses[0].runs, required);
    if snap.terminal then [Append(TerminalEvent(responses[0].closing, TerminalVerdict(snap.verdict)))]
    else Follow(Merge(r, snap), PollSteps(responses[1..], required)).ops
  }

  lemma FollowChecks(required: seq<string>, r: DeliveryResult, responses: seq<Response>)
    requires responses != [] && responses[0].Checks?
    ensures Follow(r, PollSteps(responses, required)).ops ==
      Polled(r, SnapshotOf(responses[0].at, responses[0].runs, required)) + Later(required, r, responses)
  {
  }

  lemma {:induction false} LevelFromChecks(required: seq<string>, r: DeliveryResult, found: Option<DeliveryResult>, d: Disk,
                                           responses: seq<Response>, k: nat)
    requires responses != [] && responses[0].Checks?
    requires d.file == FileAt(required, r, found, d.events)
    requires k <= |Follow(Rebuilt(required, r, d.events), PollSteps(responses, required)).ops|
    ensures LevelOrOneBehind(required, r, found,
              After(d, Follow(Rebuilt(required, r, d.events), PollSteps(responses, required)).ops[..k]))
    decreases |responses|, 0
  {
    var now := Rebuilt(required, r, d.events);
    var snap := SnapshotOf(responses[0].at, responses[0].runs, required);
    var rest := Later(required, now, responses);
    var e := SnapshotEvent(snap.at, snap.checks);
    FollowChecks(required, now, responses);
    PrefixOfPair(d, Append(e), Write(Merge(now, snap)), rest, k);
    OneEvent(required, r, found, d, e);
    var level := Do(Do(d, Append(e)), Write(Merge(now, snap)));
    RebuiltSnoc(required, r, d.events, e);
    if k >= 2 {
      if snap.terminal {
        LevelAfterTerminal(required, r, found, level, rest[0].event, k - 2);
      } else {
        LevelFrom(required, r, found, level, responses[1..], k - 2);
      }
    }
  }

  lemma LevelAfterTerminal(required: seq<string>, r: DeliveryResult, found: Option<DeliveryResult>, d: Disk, e: CiEvent, k: nat)
    requires d.file == FileAt(required, r, found, d.events) && k <= 1 && e.TerminalEvent?
    ensures LevelOrOneBehind(required, r, found, After(d, [Append(e)][..k]))
  {
  }

  /** The log without the events that were there before, and the result file. */
  function Since(before: seq<CiEvent>, d: Disk): Disk
    requires |before| <= |d.events|
  {
    Disk(d.events[|before|..], d.file)
  }

  lemma SinceAlone(before: seq<CiEvent>, found: Option<DeliveryResult>, ops: seq<Op>)
    ensures before <= After(Disk(before, found), ops).events
    ensures Since(before, After(Disk(before, found), ops)) == After(Disk([], found), ops)
  {
    FileAlone(before, found, ops);
  }

  /** At every step of a capture over any earlier events, and so wherever a crash stops it, the
      result file is what the events since then rebuild, up to at most the last of them. */
  lemma LogLeadsByAtMostOne(required: seq<string>, initial: DeliveryResult, start: Signal, now: string,
                            responses: seq<Response>, before: seq<CiEvent>, found: Option<DeliveryResult>, k: nat)
    requires k <= |Capture(initial, start, now, PollSteps(responses, required)).ops|
    ensures
      var d := After(Disk(before, found), Capture(initial, start, now, PollSteps(responses, required)).ops[..k]);
      before <= d.events && LevelOrOneBehind(required, initial, found, Since(before, d))
  {
    SinceAlone(before, found, Capture(initial, start, now, PollSteps(responses, required)).ops[..k]);
    if start.Aborted? {
      LevelAfterAbort(required, initial, found, Disk([], found), start, now, k);
    } else {
      LevelFrom(required, initial, found, Disk([], found), responses, k);
    }
  }

  lemma {:induction false} RebuiltConcat(required: seq<string>, r: DeliveryResult, a: seq<CiEvent>, b: seq<CiEvent>)
    ensures Rebuilt(required, r, a + b) == Rebuilt(required, Rebuilt(required, r, a), b)
  {
    if b == [] {
      assert a + b == a;
    } else {
      var n := |b| - 1;
      RebuiltConcat(required, r, a, b[..n]);
      assert a + b == (a + b[..n]) + [b[n]];
      RebuiltSnoc(required, r, a + b[..n], b[n]);
    }
  }

  lemma {:induction false} DeliveryKeepsResult(required: seq<string>, r: DeliveryResult, events: seq<CiEvent>)
    requires forall i :: 0 <= i < |events| ==> events[i].DeliveryEvent?
    ensures Rebuilt(required, r, events) == r
  {
    if events != [] { DeliveryKeepsResult(required, r, events[..|events| - 1]); }
  }

  /** The file is what the whole log rebuilds, or the log without its last event. */
  ghost predicate FileRebuilt(required: seq<string>, initial: DeliveryResult, d: Disk) {
    || d.file == Some(Rebuilt(required, initial, d.events))
    || (d.events != [] && d.file == Some(Rebuilt(required, initial, d.events[..|d.events| - 1])))
  }

  /** As its caller starts it, after the delivery's own events and over a file that holds the
      initial result: at every step the file is what the whole log rebuilds, or the log
      without its last event. */
  lemma LogRebuildsFile(required: seq<string>, initial: DeliveryResult, start: Signal, now: string,
                        responses: seq<Response>, before: seq<CiEvent>, k: nat)
    requires k <= |Capture(initial, start, now, PollSteps(responses, required)).ops|
    requires forall i :: 0 <= i < |before| ==> before[i].DeliveryEvent?
    ensures FileRebuilt(required, initial,
              After(Disk(before, Some(initial)), Capture(initial, start, now, PollSteps(responses, required)).ops[..k]))
  {
    var d := After(Disk(before, Some(initial)), Capture(initial, start, now, PollSteps(responses, required)).ops[..k]);
    LogLeadsByAtMostOne(required, initial, start, now, responses, before, Some(initial), k);
    DeliveryKeepsResult(required, initial, before);
    WholeLog(required, initial, before, d);
  }

  lemma WholeLog(required: seq<string>, initial: DeliveryResult, before: seq<CiEvent>, d: Disk)
    requires Rebuilt(required, initial, before) == initial && before <= d.events
    requires LevelOrOneBehind(required, initial, Some(initial), Since(before, d))
    ensures FileRebuilt(required, initial, d)
  {
    var since := d.events[|before|..];
    assert d.events == before + since;
    RebuiltConcat(required, initial, before, since);
    if since != [] {
      var n := |since| - 1;
      RebuiltConcat(required, initial, before, since[..n]);
      assert d.events[..|d.events| - 1] == before + since[..n];
    }
  }

  // ---------- the final verdict ----------

  /** The event that closes the log for a verdict. */
  predicate Closes(e: CiEvent, v: CiVerdict) {
    match e
    case SnapshotEvent(_, _) => false
    case TerminalEvent(_, verdict) => v == Ci(verdict) && Final(verdict)
    case TimeoutEvent(_) => v == TimeoutPending
    case CancelledEvent(_, reason) => v == Cancelled && reason != ByTimeout
    case DeliveryEvent(_, _) => false
  }

  ghost predicate ClosedOnce(events: seq<CiEvent>, v: CiVerdict) {
    && events != [] && Closes(events[|events| - 1], v)
    && forall i :: 0 <= i < |events| - 1 ==> events[i].SnapshotEvent?
  }

  ghost predicate OnlySnapshots(events: seq<CiEvent>) { forall i :: 0 <= i < |events| ==> events[i].SnapshotEvent? }

  ghost predicate Settled(d: Drive, disk: Disk) {
    if d.outcome.Returned? then
      var result := d.outcome.result;
      result.ciVerdict != Ci(Pending) && ClosedOnce(disk.events, result.ciVerdict) && disk.file == Some(result)
    else OnlySnapshots(disk.events)
  }

  lemma SettledAbort(r: DeliveryResult, disk: Disk, signal: Signal, now: string)
    requires OnlySnapshots(disk.events)
    ensures Settled(PersistAbort(r, signal, now), After(disk, PersistAbort(r, signal, now).ops))
  {
    var ops := PersistAbort(r, signal, now).ops;
    TwoOps(disk, ops);
  }

  lemma {:induction false} SettledFrom(required: seq<string>, r: DeliveryResult, disk: Disk, responses: seq<Response>)
    requires OnlySnapshots(disk.events)
    ensures
      var d := Follow(r, PollSteps(responses, required));
      Settled(d, After(disk, d.ops))
    decreases |responses|
  {
    var steps := PollSteps(responses, required);
    if responses == [] {
    } else if responses[0].Error? {
      SettledAbort(r, disk, responses[0].signal, responses[0].now);
    } else {
      var snap := SnapshotOf(responses[0].at, responses[0].runs, required);
      var m, next := Merge(r, snap), After(disk, Polled(r, snap));
      assert steps[0] == Yields(snap, responses[0].closing);
      TwoOps(disk, Polled(r, snap));
      FollowChecks(required, r, responses);
      AfterConcat(disk, Polled(r, snap), Later(required, r, responses));
      if !snap.terminal {
        assert steps[1..] == PollSteps(responses[1..], required);
        SettledFrom(required, m, next, responses[1..]);
      }
    }
  }

  /** Driven by the poll generator, over any earlier events, a capture that returns never
      returns a pending verdict; the result file holds what it returned; and what it logged is
      snapshots closed by exactly one event that names that verdict. One that throws or is
      still waiting has closed nothing. */
  lemma VerdictIsFinal(required: seq<string>, initial: DeliveryResult, start: Signal, now: string,
                       responses: seq<Response>, before: seq<CiEvent>, found: Option<DeliveryResult>)
    ensures
      var d := Capture(initial, start, now, PollSteps(responses, required));
      var disk := After(Disk(before, found), d.ops);
      before <= disk.events && Settled(d, Since(before, disk))
  {
    SinceAlone(before, found, Capture(initial, start, now, PollSteps(responses, required)).ops);
    if start.Aborted? {
      SettledAbort(initial, Disk([], found), start, now);
    } else {
      SettledFrom(required, initial, Disk([], found), responses);
    }
  }

  // ---------- a capture in full ----------

  /** The poll goes on after this response. */
  ghost predicate StillPending(required: seq<string>, response: Response) {
    response.Checks? && VerdictOf(response.runs, required) == Pending
  }

  /** Response `n` is the first at which the poll stops, or all are pending and there are `n`. */
  ghost predicate StopsAt(required: seq<string>, responses: seq<Response>, n: nat) {
    && n <= |responses| && (forall k :: 0 <= k < n ==> StillPending(required, responses[k]))
    && (n < |responses| ==> !StillPending(required, responses[n]))
  }

  /** The responses polled when response `n` is the first that stops. */
  function PolledBy(responses: seq<Response>, n: nat): nat { if n < |responses| && responses[n].Checks? then n + 1 else n }

  /** What is logged for an abort. */
  ghost predicate AbortLogged(signal: Signal, now: string, e: CiEvent) {
    match signal
    case Live => e == CancelledEvent(now, ByParentAbort)
    case Aborted(reason) =>
      && (reason == TimeoutReason ==> e == TimeoutEvent(now))
      && (reason == Sigint ==> e == CancelledEvent(now, BySigint))
      && (reason == Sentinel ==> e == CancelledEvent(now, BySentinel))
      && (reason == OtherReason ==> e == CancelledEvent(now, ByParentAbort))
  }

  /** What an abort makes of a result. */
  ghost predicate AbortHeld(r: DeliveryResult, signal: Signal, now: string, result: DeliveryResult) {
    && result.updatedAt == now
    && if signal == Aborted(TimeoutReason) then result.ciVerdict == TimeoutPending && result.exhaustedAt == Some(now)
       else result.ciVerdict == Cancelled && result.exhaustedAt == r.exhaustedAt
  }

  /** What the poll makes of a result: the verdict and the time of the last response polled. */
  ghost predicate PollHeld(required: seq<string>, r: DeliveryResult, responses: seq<Response>, polled: nat, result: DeliveryResult) {
    if polled == 0 then result == r
    else
      && polled <= |responses| && responses[polled - 1].Checks?
      && result.ciVerdict == Ci(VerdictOf(responses[polled - 1].runs, required))
      && result.updatedAt == responses[polled - 1].at && result.exhaustedAt == r.exhaustedAt
  }

  /** One event a polled response, with what it reported. */
  ghost predicate PollLogged(responses: seq<Response>, polled: nat, events: seq<CiEvent>) {
    && polled <= |responses| && polled <= |events|
    && forall k :: 0 <= k < polled ==> responses[k].Checks? && events[k] == SnapshotEvent(responses[k].at, responses[k].runs)
  }

  /** The signal or the error at which the poll stops is one that capture answers with an abort. */
  ghost predicate Aborting(response: Response) { response.Error? && (response.abortLike || response.signal != Live) }

  /** What a poll that stops at response `n` has logged, and what came of it. */
  ghost predicate FollowedTo(required: seq<string>, r: DeliveryResult, responses: seq<Response>, n: nat, d: Drive,
                             events: seq<CiEvent>, result: DeliveryResult) {
    var polled := PolledBy(responses, n);
    && result.identity == r.identity && PollLogged(responses, polled, events)
    && if n < |responses| && responses[n].Checks? then
         && |events| == polled + 1 && events[polled] == TerminalEvent(responses[n].closing, VerdictOf(responses[n].runs, required))
         && d.outcome == Returned(result) && PollHeld(required, r, responses, polled, result)
       else if n < |responses| && Aborting(responses[n]) then
         && |events| == polled + 1 && AbortLogged(responses[n].signal, responses[n].now, events[polled])
         && d.outcome == Returned(result) && AbortHeld(r, responses[n].signal, responses[n].now, result)
       else
         && |events| == polled && PollHeld(required, r, responses, polled, result)
         && d.outcome == if n == |responses| then Waiting else Thrown
  }

  lemma FollowStops(required: seq<string>, r: DeliveryResult, responses: seq<Response>)
    requires responses != [] && !StillPending(required, responses[0])
    ensures Followed(required, r, responses, 0)
  {
    var steps := PollSteps(responses, required);
    var ops := Follow(r, steps).ops;
    if responses[0].Checks? {
      var snap := SnapshotOf(responses[0].at, responses[0].runs, required);
      OneMore(Disk([], None), Polled(r, snap), Append(TerminalEvent(responses[0].closing, snap.verdict)));
      TwoOps(Disk([], None), Polled(r, snap));
    } else if ops != [] {
      TwoOps(Disk([], None), ops);
    }
  }

  lemma FollowGoesOn(required: seq<string>, r: DeliveryResult, responses: seq<Response>)
    requires responses != [] && StillPending(required, responses[0])
    ensures var steps, m := PollSteps(responses, required), Merge(r, SnapshotOf(responses[0].at, responses[0].runs, required));
      var rest := PollSteps(responses[1..], required);
      && Held(r, steps) == Held(m, rest) && Follow(r, steps).outcome == Follow(m, rest).outcome
      && After(Disk([], None), Follow(r, steps).ops).events ==
           [SnapshotEvent(responses[0].at, responses[0].runs)] + After(Disk([], None), Follow(m, rest).ops).events
  {
    var snap := SnapshotOf(responses[0].at, responses[0].runs, required);
    var m, rest := Merge(r, snap), PollSteps(responses[1..], required);
    var steps := PollSteps(responses, required);
    assert steps == [Yields(snap, responses[0].closing)] + rest;
    assert steps[1..] == rest;
    assert Follow(r, steps).ops == Polled(r, snap) + Follow(m, rest).ops;
    AfterConcat(Disk([], None), Polled(r, snap), Follow(m, rest).ops);
    TwoOps(Disk([], None), Polled(r, snap));
    assert After(Disk([], None), Polled(r, snap)) == Disk([SnapshotEvent(responses[0].at, responses[0].runs)], Some(m));
    FileAlone([SnapshotEvent(responses[0].at, responses[0].runs)], Some(m), Follow(m, rest).ops);
    EventsAlone(Some(m), Follow(m, rest).ops);
  }

  lemma {:induction false} EventsAlone(file: Option<DeliveryResult>, ops: seq<Op>)
    ensures After(Disk([], file), ops).events == After(Disk([], None), ops).events
    decreases |ops|
  {
    if ops != [] {
      var d, e := Do(Disk([], file), ops[0]), Do(Disk([], None), ops[0]);
      FileAlone(d.events, d.file, ops[1..]);
      FileAlone(e.events, e.file, ops[1..]);
      EventsAlone(d.file, ops[1..]);
      EventsAlone(e.file, ops[1..]);
    }
  }

  lemma LoggedLater(required: seq<string>, responses: seq<Response>, polled: nat, events: seq<CiEvent>)
    requires responses != [] && responses[0].Checks? && PollLogged(responses[1..], polled, events)
    ensures PollLogged(responses, polled + 1, [SnapshotEvent(responses[0].at, responses[0].runs)] + events)
  {
    var rest := responses[1..];
    assert forall k :: 0 < k <= polled ==> responses[k] == rest[k - 1];
  }

  lemma HeldLater(required: seq<string>, r: DeliveryResult, responses: seq<Response>, polled: nat, result: DeliveryResult)
    requires responses != [] && StillPending(required, responses[0])
    requires PollHeld(required, Merge(r, SnapshotOf(responses[0].at, responses[0].runs, required)), responses[1..], polled, result)
    ensures PollHeld(required, r, responses, polled + 1, result)
  {
  }

  lemma FollowedLater(required: seq<string>, r: DeliveryResult, m: DeliveryResult, responses: seq<Response>, n: nat, d: Drive,
                      dm: Drive, events: seq<CiEvent>, result: DeliveryResult)
    requires responses != [] && StillPending(required, responses[0]) && n < |responses|
    requires m == Merge(r, SnapshotOf(responses[0].at, responses[0].runs, required)) && d.outcome == dm.outcome
    requires FollowedTo(required, m, responses[1..], n, dm, events, result)
    ensures FollowedTo(required, r, responses, n + 1, d, [SnapshotEvent(responses[0].at, responses[0].runs)] + events, result)
  {
    var rest, e := responses[1..], SnapshotEvent(responses[0].at, responses[0].runs);
    var polled := PolledBy(rest, n);
    assert n < |rest| ==> rest[n] == responses[n + 1];
    LoggedLater(required, responses, polled, events);
    AfterFirst(e, events, polled);
    if PollHeld(required, m, rest, polled, result) { HeldLater(required, r, responses, polled, result); }
  }

  lemma AfterFirst(e: CiEvent, events: seq<CiEvent>, k: nat)
    requires k <= |events|
    ensures |[e] + events| == |events| + 1 && (k < |events| ==> ([e] + events)[k + 1] == events[k])
  {
  }

  lemma StopsLater(required: seq<string>, responses: seq<Response>, n: nat)
    requires responses != [] && StillPending(required, responses[0]) && StopsAt(required, responses[1..], n)
    ensures StopsAt(required, responses, n + 1)
  {
    assert forall k :: 0 < k < |responses| ==> responses[k] == responses[1..][k - 1];
  }

  /** How a poll goes on from `r`, given that it stops at response `n`. */
  ghost predicate Followed(required: seq<string>, r: DeliveryResult, responses: seq<Response>, n: nat) {
    var steps := PollSteps(responses, required);
    FollowedTo(required, r, responses, n, Follow(r, steps), After(Disk([], None), Follow(r, steps).ops).events, Held(r, steps))
  }

  lemma FollowedOneMore(required: seq<string>, r: DeliveryResult, responses: seq<Response>, n: nat)
    requires responses != [] && StillPending(required, responses[0]) && n < |responses|
    requires Followed(required, Merge(r, SnapshotOf(responses[0].at, responses[0].runs, required)), responses[1..], n)
    ensures Followed(required, r, responses, n + 1)
  {
    var m := Merge(r, SnapshotOf(responses[0].at, responses[0].runs, required));
    var rest, steps := PollSteps(responses[1..], required), PollSteps(responses, required);
    FollowGoesOn(required, r, responses);
    FollowedLater(required, r, m, responses, n, Follow(r, steps), Follow(m, rest),
                  After(Disk([], None), Follow(m, rest).ops).events, Held(m, rest));
  }

  lemma {:induction false} FollowMeaning(required: seq<string>, r: DeliveryResult, responses: seq<Response>) returns (n: nat)
    ensures StopsAt(required, responses, n) && Followed(required, r, responses, n)
    decreases |responses|
  {
    n := 0;
    if responses == [] {
    } else if !StillPending(required, responses[0]) {
      FollowStops(required, r, responses);
    } else {
      n := FollowMeaning(required, Merge(r, SnapshotOf(responses[0].at, responses[0].runs, required)), responses[1..]);
      StopsLater(required, responses, n);
      FollowedOneMore(required, r, responses, n);
      n := n + 1;
    }
  }

  /** What a capture keeps of all its snapshots: all while there are at most eleven, else the first and the last ten. */
  ghost predicate Windowed(all: seq<Stored>, kept: seq<Stored>) {
    if |all| <= 11 then kept == all
    else |kept| == 11 && kept[0] == all[0] && forall i :: 1 <= i < 11 ==> kept[i] == all[|all| - 11 + i]
  }

  lemma StopsEarlier(required: seq<string>, responses: seq<Response>, n: nat)
    requires responses != [] && StillPending(required, responses[0]) && StopsAt(required, responses, n)
    ensures n > 0 && StopsAt(required, responses[1..], n - 1)
    ensures PolledBy(responses, n) == PolledBy(responses[1..], n - 1) + 1
  {
    assert forall k :: 0 < k < |responses| ==> responses[k] == responses[1..][k - 1];
  }

  /** One snapshot a response polled, with what it reported. */
  ghost predicate StoredFrom(responses: seq<Response>, seen: seq<Stored>) {
    && |seen| <= |responses|
    && forall k :: 0 <= k < |seen| ==> responses[k].Checks? && seen[k] == Stored(responses[k].at, responses[k].runs)
  }

  lemma SeenOneMore(responses: seq<Response>, rest: seq<Stored>, x: Stored)
    requires responses != [] && responses[0].Checks? && x == Stored(responses[0].at, responses[0].runs)
    requires StoredFrom(responses[1..], rest)
    ensures StoredFrom(responses, [x] + rest)
  {
    assert forall k :: 0 < k < |responses| ==> responses[k] == responses[1..][k - 1];
  }

  lemma {:induction false} SeenAre(required: seq<string>, responses: seq<Response>, n: nat)
    requires StopsAt(required, responses, n)
    ensures |Seen(PollSteps(responses, required))| == PolledBy(responses, n)
    ensures StoredFrom(responses, Seen(PollSteps(responses, required)))
    decreases |responses|
  {
    if responses != [] && responses[0].Checks? {
      var snap := SnapshotOf(responses[0].at, responses[0].runs, required);
      var x := Stored(responses[0].at, responses[0].runs);
      assert PollSteps(responses, required)[0] == Yields(snap, responses[0].closing);
      if !snap.terminal {
        var rest := Seen(PollSteps(responses[1..], required));
        assert PollSteps(responses, required)[1..] == PollSteps(responses[1..], required);
        StopsEarlier(required, responses, n);
        SeenAre(required, responses[1..], n - 1);
        assert Seen(PollSteps(responses, required)) == [x] + rest;
        SeenOneMore(responses, rest, x);
      }
    }
  }

  ghost predicate Reached(required: seq<string>, r: DeliveryResult, responses: seq<Response>, n: nat, d: Drive, disk: Disk,
                          result: DeliveryResult) {
    FollowedTo(required, r, responses, n, d, disk.events, result) && disk.file == Some(result)
  }

  /** A live capture in full, over any responses: how far it polls, what it logs, what it holds
      in the end and how it ends. */
  lemma CaptureMeaning(required: seq<string>, initial: DeliveryResult, now: string, responses: seq<Response>)
    returns (n: nat, result: DeliveryResult, seen: seq<Stored>)
    ensures StopsAt(required, responses, n)
    ensures |seen| == PolledBy(responses, n) && StoredFrom(responses, seen)
    ensures var d := Capture(initial, Live, now, PollSteps(responses, required));
      Reached(required, initial, responses, n, d, After(Disk([], Some(initial)), d.ops), result)
    ensures if seen == [] then result.snapshots == initial.snapshots else Windowed(initial.snapshots + seen, result.snapshots)
  {
    var steps := PollSteps(responses, required);
    n := FollowReached(required, initial, responses);
    result, seen := Held(initial, steps), Seen(steps);
    SeenAre(required, responses, n);
    HeldWindow(initial, steps);
  }

  lemma RollIsWindow(all: seq<Stored>)
    ensures Windowed(all, Roll(all))
  {
  }

  lemma HeldWindow(r: DeliveryResult, steps: seq<Step>)
    ensures if Seen(steps) == [] then Held(r, steps).snapshots == r.snapshots
      else Windowed(r.snapshots + Seen(steps), Held(r, steps).snapshots)
  {
    if Seen(steps) != [] {
      WindowIsOneShot(r, steps);
      RollIsWindow(r.snapshots + Seen(steps));
    }
  }

  lemma FollowReached(required: seq<string>, initial: DeliveryResult, responses: seq<Response>) returns (n: nat)
    ensures StopsAt(required, responses, n)
    ensures var steps := PollSteps(responses, required);
      var d := Follow(initial, steps);
      Reached(required, initial, responses, n, d, After(Disk([], Some(initial)), d.ops), Held(initial, steps))
  {
    var steps := PollSteps(responses, required);
    n := FollowMeaning(required, initial, responses);
    ReturnsHeld(initial, steps);
    EventsAlone(Some(initial), Follow(initial, steps).ops);
  }

  /** A capture that is aborted before it starts logs that and nothing else. */
  lemma AbortedCapture(required: seq<string>, initial: DeliveryResult, start: Signal, now: string, responses: seq<Response>)
    requires start.Aborted?
    ensures var d := Capture(initial, start, now, PollSteps(responses, required));
      var disk := After(Disk([], Some(initial)), d.ops);
      && |disk.events| == 1 && AbortLogged(start, now, disk.events[0])
      && d.outcome.Returned? && disk.file == Some(d.outcome.result) && AbortHeld(initial, start, now, d.outcome.result)
      && d.outcome.result.identity == initial.identity && d.outcome.result.snapshots == initial.snapshots
  {
    TwoOps(Disk([], Some(initial)), PersistAbort(initial, start, now).ops);
  }
}
