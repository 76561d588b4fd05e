/** Normalising a live planning output into a task graph the executor can run. */
module PlanNormalizer {
  import opened Prelude
  import Text
  import opened Plan
  import opened DryRun

  /** The parts of a raw task record the task graph is made from; None where the field is not of the expected type. */
  datatype RawTask = RawTask(id: Option<string>, kind: Option<string>, dependsOn: Option<seq<Option<string>>>)

  datatype NormalTask = NormalTask(id: string, kind: string, dependsOn: seq<string>)

  // ---------- nextLivePlanningTaskId ----------

  function Candidate(base: string, k: nat): string { base + "-" + Text.Decimal(k) }

  lemma CandidateInjective(base: string, i: nat, k: nat)
    requires Candidate(base, i) == Candidate(base, k)
    ensures i == k
  {
    var n := |base| + 1;
    assert Candidate(base, i)[n..] == Text.Decimal(i) && Candidate(base, k)[n..] == Text.Decimal(k);
    Text.DecimalInjective(i, k);
  }

  ghost predicate AllTaken(base: string, existing: set<string>, k: nat) {
    forall i :: 2 <= i < k ==> Candidate(base, i) in existing
  }

  /** The first `k - 2` candidates are distinct, so as many ids exist. */
  lemma {:induction false} Pigeonhole(base: string, existing: set<string>, k: nat)
    requires k >= 2 && AllTaken(base, existing, k)
    ensures k - 2 <= |existing|
  {
    if k > 2 {
      var last := Candidate(base, k - 1);
      forall i | 2 <= i < k - 1 ensures Candidate(base, i) in existing - {last} {
        if Candidate(base, i) == last { CandidateInjective(base, i, k - 1); }
      }
      Pigeonhole(base, existing - {last}, k - 1);
    }
  }

  /** The unbounded search for a free suffix; it ends because ids are finitely many. */
  function FirstFree(base: string, existing: set<string>, k: nat): (r: string)
    requires k >= 2 && AllTaken(base, existing, k)
    ensures r !in existing
    ensures exists n :: n >= 2 && r == Candidate(base, n)
    decreases |existing| + 2 - k
  {
    Pigeonhole(base, existing, k);
    if Candidate(base, k) !in existing then Candidate(base, k)
    else
      Pigeonhole(base, existing, k + 1);
      FirstFree(base, existing, k + 1)
  }

  /** `id` is the base or one of its numbered candidates. */
  ghost predicate Numbered(base: string, id: string) {
    id == base || exists n :: n >= 2 && id == Candidate(base, n)
  }

  function NextId(base: string, existing: set<string>): (r: string)
    ensures r !in existing && Numbered(base, r)
  {
    if base !in existing then base else FirstFree(base, existing, 2)
  }

  lemma {:induction false} FirstFreeIsFirst(base: string, existing: set<string>, k: nat) returns (n: nat)
    requires k >= 2 && AllTaken(base, existing, k)
    ensures n >= k && FirstFree(base, existing, k) == Candidate(base, n) && AllTaken(base, existing, n)
    decreases |existing| + 2 - k
  {
    Pigeonhole(base, existing, k);
    n := k;
    if Candidate(base, k) in existing {
      Pigeonhole(base, existing, k + 1);
      n := FirstFreeIsFirst(base, existing, k + 1);
    }
  }

  /** The id chosen is free: the base itself when it is, else the lowest-numbered free candidate. */
  lemma NextIdIsFirst(base: string, existing: set<string>)
    ensures NextId(base, existing) !in existing
    ensures base !in existing ==> NextId(base, existing) == base
    ensures base in existing ==> exists n: nat :: n >= 2 && NextId(base, existing) == Candidate(base, n) && AllTaken(base, existing, n)
  {
    if base in existing { var n := FirstFreeIsFirst(base, existing, 2); }
  }

  method NextLivePlanningTaskId(baseId: string, existingIds: set<string>) returns (id: string)
    ensures id == NextId(baseId, existingIds)
  {
    if baseId !in existingIds { return baseId; }
    var index := 2;
    while true
      invariant index >= 2 && AllTaken(baseId, existingIds, index)
      invariant FirstFree(baseId, existingIds, 2) == FirstFree(baseId, existingIds, index)
      decreases |existingIds| + 2 - index
    {
      Pigeonhole(baseId, existingIds, index);
      var candidate := Candidate(baseId, index);
      if candidate !in existingIds { return candidate; }
      Pigeonhole(baseId, existingIds, index + 1);
      index := index + 1;
    }
  }

  // ---------- normalizeLivePlanningPileOutput ----------

  predicate IsPlanTaskIdLike(id: string) { "task-" <= id }

  predicate IsTaskKind(kind: string) {
    kind in {"research", "design", "implementation", "verification", "release"}
  }

  function RawId(t: RawTask): string { if t.id.Some? then t.id.value else "" }

  function BaseId(t: RawTask, index: nat): string {
    if IsPlanTaskIdLike(RawId(t)) then RawId(t) else "task-live-planning-" + Text.Decimal(index + 1)
  }

  /** The first loop's variables: ids by index, the id first given to each raw id, and the ids seen. */
  datatype Assigned = Assigned(ids: seq<string>, firstByRaw: map<string, string>, seen: set<string>)

  function Assign(records: seq<RawTask>): (a: Assigned)
    ensures |a.ids| == |records| && a.seen == (set id | id in a.ids)
  {
    if records == [] then Assigned([], map[], {})
    else
      var n := |records| - 1;
      var a := Assign(records[..n]);
      var id := NextId(BaseId(records[n], n), a.seen);
      var raw := RawId(records[n]);
      Assigned(a.ids + [id], if raw != "" && raw !in a.firstByRaw then a.firstByRaw[raw := id] else a.firstByRaw, a.seen + {id})
  }

  function MapDependencies(deps: seq<Option<string>>, firstByRaw: map<string, string>): seq<string> {
    if deps == [] then []
    else
      var rest := MapDependencies(deps[1..], firstByRaw);
      if deps[0].Some? && deps[0].value in firstByRaw then [firstByRaw[deps[0].value]] + rest else rest
  }

  function NormalizeTask(t: RawTask, id: string, firstByRaw: map<string, string>): NormalTask {
    NormalTask(id,
               if t.kind.Some? && IsTaskKind(t.kind.value) then t.kind.value else "implementation",
               if t.dependsOn.Some? then MapDependencies(t.dependsOn.value, firstByRaw) else [])
  }

  function NormalizeTasks(records: seq<RawTask>): seq<NormalTask> {
    var a := Assign(records);
    seq(|records|, i requires 0 <= i < |records| => NormalizeTask(records[i], a.ids[i], a.firstByRaw))
  }

  // ---------- ensureLivePlanningPreHandoffVerification ----------

  predicate IsImplementation(t: NormalTask) { t.kind == "implementation" }

  predicate NeedsVerification(tasks: seq<NormalTask>) { exists i :: 0 <= i < |tasks| && IsImplementation(tasks[i]) }

  function IdsOf(tasks: seq<NormalTask>): set<string> { set i | 0 <= i < |tasks| :: tasks[i].id }

  function EnsureVerification(tasks: seq<NormalTask>): seq<NormalTask> {
    if !NeedsVerification(tasks) then
      seq(|tasks|, i requires 0 <= i < |tasks| => tasks[i].(dependsOn := []))
    else
      var verification := NextId(SYNTHETIC, IdsOf(tasks));
      [NormalTask(verification, "verification", [])]
      + seq(|tasks|, i requires 0 <= i < |tasks| =>
          tasks[i].(dependsOn := if IsImplementation(tasks[i]) then [verification] else []))
  }

  function Normalize(records: seq<RawTask>): seq<NormalTask> { EnsureVerification(NormalizeTasks(records)) }

  lemma AssignOneMore(records: seq<RawTask>, index: nat)
    requires index < |records|
    ensures
      var a, t := Assign(records[..index]), records[index];
      var id, raw := NextId(BaseId(t, index), a.seen), RawId(t);
      Assign(records[..index + 1]) ==
      Assigned(a.ids + [id], if raw != "" && raw !in a.firstByRaw then a.firstByRaw[raw := id] else a.firstByRaw, a.seen + {id})
  {
    assert records[..index + 1][..index] == records[..index] && records[..index + 1][index] == records[index];
  }

  method NormalizeLivePlanningPileOutput(records: seq<RawTask>) returns (tasks: seq<NormalTask>)
    ensures tasks == Normalize(records)
  {
    var idsByIndex: seq<string> := [];
    var firstIdByRawId: map<string, string> := map[];
    var seenIds: set<string> := {};
    for index := 0 to |records|
      invariant Assigned(idsByIndex, firstIdByRawId, seenIds) == Assign(records[..index])
    {
      AssignOneMore(records, index);
      var rawId := RawId(records[index]);
      var normalizedId := NextLivePlanningTaskId(BaseId(records[index], index), seenIds);
      seenIds := seenIds + {normalizedId};
      idsByIndex := idsByIndex + [normalizedId];
      if |rawId| > 0 && rawId !in firstIdByRawId {
        firstIdByRawId := firstIdByRawId[rawId := normalizedId];
      }
    }
    assert records[..|records|] == records;
    tasks := EnsureVerification(
      seq(|records|, i requires 0 <= i < |records| => NormalizeTask(records[i], idsByIndex[i], firstIdByRawId)));
  }

  // ---------- the result is always runnable ----------

  function AsPlan(tasks: seq<NormalTask>): seq<Task> {
    seq(|tasks|, i requires 0 <= i < |tasks| => Task(tasks[i].id, tasks[i].dependsOn))
  }

  /** What every assigned id is: its base, or the base with a number. */
  ghost predicate FromBase(records: seq<RawTask>, ids: seq<string>) {
    |ids| == |records| && forall i :: 0 <= i < |ids| ==> Numbered(BaseId(records[i], i), ids[i])
  }

  lemma {:induction false} AssignedIds(records: seq<RawTask>)
    ensures Distinct(Assign(records).ids) && FromBase(records, Assign(records).ids)
  {
    if records != [] {
      var n := |records| - 1;
      AssignedIds(records[..n]);
      var a, id := Assign(records[..n]), NextId(BaseId(records[n], n), Assign(records[..n]).seen);
      assert Assign(records).ids == a.ids + [id];
      OneMoreId(records, a.ids, id);
    }
  }

  lemma OneMoreId(records: seq<RawTask>, ids: seq<string>, id: string)
    requires records != [] && Distinct(ids) && id !in ids
    requires FromBase(records[..|records| - 1], ids) && Numbered(BaseId(records[|records| - 1], |records| - 1), id)
    ensures Distinct(ids + [id]) && FromBase(records, ids + [id])
  {
  }

  /** The inserted task's id: reserved, and new. */
  lemma VerificationId(existing: set<string>)
    ensures var v := NextId(SYNTHETIC, existing); v !in existing && IsSynthetic(v) && "task-" <= v
  {
  }

  /** The output: ids as assigned, behind the inserted task if there is one, and dependencies on it alone. */
  ghost predicate Shape(out: seq<NormalTask>, ids: seq<string>, inserted: bool) {
    if inserted then
      && |out| == |ids| + 1 && out[0].id !in ids && out[0].dependsOn == []
      && forall i :: 0 <= i < |ids| ==> out[i + 1].id == ids[i] && out[i + 1].dependsOn in [[], [out[0].id]]
    else
      |out| == |ids| && forall i :: 0 <= i < |ids| ==> out[i].id == ids[i] && out[i].dependsOn == []
  }

  lemma EnsuredShape(tasks: seq<NormalTask>, ids: seq<string>)
    requires |ids| == |tasks| && forall i :: 0 <= i < |ids| ==> tasks[i].id == ids[i]
    ensures Shape(EnsureVerification(tasks), ids, NeedsVerification(tasks))
    ensures NeedsVerification(tasks) ==> IsSynthetic(EnsureVerification(tasks)[0].id) && "task-" <= EnsureVerification(tasks)[0].id
  {
    if NeedsVerification(tasks) {
      VerificationId(IdsOf(tasks));
      forall i | 0 <= i < |ids| ensures ids[i] in IdsOf(tasks) {
        assert tasks[i].id in IdsOf(tasks);
      }
    }
  }

  lemma OutputShape(records: seq<RawTask>)
    ensures var out, inserted := Normalize(records), NeedsVerification(NormalizeTasks(records));
      Shape(out, Assign(records).ids, inserted) && (inserted ==> IsSynthetic(out[0].id) && "task-" <= out[0].id)
  {
    EnsuredShape(NormalizeTasks(records), Assign(records).ids);
  }

  lemma NothingFails(tasks: seq<Task>)
    requires Distinct(Ids(tasks)) && TopologicallyOrdered(tasks)
    ensures DryRunOf(tasks, {}).succeeded
  {
    forall i | 0 <= i < |tasks| ensures DryRunOf(tasks, {}).tasks[i].succeeded { DryRunMeaning(tasks, {}, i); }
  }

  lemma ShapedPlan(out: seq<NormalTask>, ids: seq<string>, inserted: bool)
    requires Shape(out, ids, inserted) && Distinct(ids)
    ensures Distinct(Ids(AsPlan(out))) && TopologicallyOrdered(AsPlan(out))
  {
    var plan := AsPlan(out);
    var shift := if inserted then 1 else 0;
    forall i | shift <= i < |out| ensures out[i].id == ids[i - shift] {
      assert out[(i - shift) + shift].id == ids[i - shift];
    }
    forall i, k | 0 <= i < k < |plan| ensures Ids(plan)[i] != Ids(plan)[k] {
      assert Ids(plan)[i] == out[i].id && Ids(plan)[k] == out[k].id;
      if i >= shift { assert ids[i - shift] != ids[k - shift]; }
    }
    forall i, d | 0 <= i < |plan| && d in plan[i].dependsOn ensures d in Ids(plan[..i]) {
      assert plan[i].dependsOn == out[i].dependsOn == out[(i - shift) + shift].dependsOn;
      assert Ids(plan[..i])[0] == out[0].id == d;
    }
  }

  lemma AssignedIsTask(records: seq<RawTask>, ids: seq<string>, k: nat)
    requires FromBase(records, ids) && k < |ids|
    ensures "task-" <= ids[k]
  {
  }

  lemma AllTasks(records: seq<RawTask>)
    ensures forall i :: 0 <= i < |Normalize(records)| ==> "task-" <= Normalize(records)[i].id
  {
    var out, ids := Normalize(records), Assign(records).ids;
    OutputShape(records);
    AssignedIds(records);
    var inserted := NeedsVerification(NormalizeTasks(records));
    forall i | 0 <= i < |out| ensures "task-" <= out[i].id {
      if !inserted || i > 0 {
        OthersAreAssigned(out, ids, inserted, i);
        var k :| 0 <= k < |ids| && ids[k] == out[i].id;
        AssignedIsTask(records, ids, k);
      }
    }
  }

  lemma OthersAreAssigned(out: seq<NormalTask>, ids: seq<string>, inserted: bool, i: nat)
    requires Shape(out, ids, inserted) && i < |out| && (inserted ==> i > 0)
    ensures out[i].id in ids
  {
    if inserted { assert out[(i - 1) + 1].id == ids[i - 1]; }
  }

  /** Ids pairwise distinct and starting with "task-", every dependency a strictly earlier
      task, and a dry run without injected failures succeeds on every task. */
  ghost predicate Runnable(plan: seq<Task>) {
    && Distinct(Ids(plan))
    && TopologicallyOrdered(plan)
    && (forall i :: 0 <= i < |plan| ==> "task-" <= plan[i].planTaskId)
    && DryRunOf(plan, {}).succeeded
  }

  lemma ShapeRunnable(out: seq<NormalTask>, ids: seq<string>, inserted: bool)
    requires Shape(out, ids, inserted) && Distinct(ids)
    requires forall i :: 0 <= i < |out| ==> "task-" <= out[i].id
    ensures Runnable(AsPlan(out))
  {
    ShapedPlan(out, ids, inserted);
    NothingFails(AsPlan(out));
  }

  /** Whatever the input records, the normalised plan is runnable. */
  lemma NormalizedPlanRunnable(records: seq<RawTask>)
    ensures Runnable(AsPlan(Normalize(records)))
  {
    OutputShape(records);
    AssignedIds(records);
    AllTasks(records);
    ShapeRunnable(Normalize(records), Assign(records).ids, NeedsVerification(NormalizeTasks(records)));
  }

  // ---------- which tasks the executor will pass without running ----------

  lemma SuffixNeverMakesSynthetic(base: string, n: nat)
    requires IsSynthetic(Candidate(base, n))
    ensures IsSynthetic(base)
  {
    var id, digits, m := Candidate(base, n), Text.Decimal(n), |SYNTHETIC|;
    assert SYNTHETIC <= id && id[m - 1] == SYNTHETIC[m - 1] == 'n';
    assert forall k :: |base| < k < |id| ==> id[k] == digits[k - |base| - 1] && Text.IsDigit(id[k]);
    assert Text.IsDigit(id[|id| - 1]);
    assert |base| >= m;
    assert base[..m] == id[..m] == SYNTHETIC;
    if |base| > m {
      assert base[..m + 1] == id[..m + 1] == SYNTHETIC + "-";
    } else {
      assert base == base[..m];
    }
  }

  lemma NumberedNeverSynthetic(n: nat)
    ensures !IsSynthetic("task-live-planning-" + Text.Decimal(n))
  {
    var id := "task-live-planning-" + Text.Decimal(n);
    assert id[19] == Text.Decimal(n)[0];
    assert SYNTHETIC[19] == 'p';
  }

  /** An assigned id is of the reserved form exactly when the raw id is. */
  lemma AssignedSynthetic(t: RawTask, index: nat, id: string)
    requires Numbered(BaseId(t, index), id)
    ensures IsSynthetic(id) <==> IsSynthetic(RawId(t))
  {
    var base := BaseId(t, index);
    if IsSynthetic(id) && id != base {
      var n :| n >= 2 && id == Candidate(base, n);
      SuffixNeverMakesSynthetic(base, n);
    }
    assert IsSynthetic(base) <==> IsSynthetic(RawId(t)) by {
      if IsPlanTaskIdLike(RawId(t)) {
      } else {
        NumberedNeverSynthetic(index + 1);
      }
    }
  }

  /** The executor passes without running exactly the inserted task and those tasks whose
      own raw id already has the reserved form, whatever their kind. */
  lemma SyntheticExactly(records: seq<RawTask>, i: nat)
    requires i < |records|
    ensures var shift := |Normalize(records)| - |records|;
      && 0 <= shift <= 1
      && (IsSynthetic(Normalize(records)[i + shift].id) <==> IsSynthetic(RawId(records[i])))
      && (shift == 1 ==> IsSynthetic(Normalize(records)[0].id))
  {
    OutputShape(records);
    AssignedIds(records);
    AssignedSynthetic(records[i], i, Assign(records).ids[i]);
  }

  /** So an implementation task with such a raw id counts as succeeded without the adapter having run. */
  lemma ImplementationTakenForSynthetic()
    ensures var records := [RawTask(Some(SYNTHETIC), Some("implementation"), None)];
      && |Normalize(records)| == 2
      && Normalize(records)[1].kind == "implementation"
      && IsSynthetic(Normalize(records)[1].id)
  {
    var records := [RawTask(Some(SYNTHETIC), Some("implementation"), None)];
    assert IsImplementation(NormalizeTasks(records)[0]);
    SyntheticExactly(records, 0);
    OutputShape(records);
  }

  // ---------- what the output says of each record ----------

  /** A record's kind in the output: its own if it is one of the five, else "implementation". */
  ghost predicate KindKept(t: RawTask, kind: string) {
    if t.kind in [Some("research"), Some("design"), Some("implementation"), Some("verification"), Some("release")]
    then t.kind == Some(kind)
    else kind == "implementation"
  }

  /** The output task of record `i`, behind an offset. */
  function TaskOf(out: seq<NormalTask>, shift: nat, i: nat): NormalTask
    requires i + shift < |out|
  {
    out[i + shift]
  }

  /** Behind an offset of 0 or 1, each record has its kind; some are implementation tasks. */
  ghost predicate KindsKept(records: seq<RawTask>, out: seq<NormalTask>, shift: nat) {
    |out| == |records| + shift && forall i :: 0 <= i < |records| ==> KindKept(records[i], TaskOf(out, shift, i).kind)
  }

  lemma KindOfTask(t: RawTask, id: string, firstByRaw: map<string, string>)
    ensures KindKept(t, NormalizeTask(t, id, firstByRaw).kind)
  {
  }

  /** What `ensureLivePlanningPreHandoffVerification` makes of normalised tasks. */
  ghost predicate Ensured(tasks: seq<NormalTask>, out: seq<NormalTask>, shift: nat) {
    && |out| == |tasks| + shift && shift <= 1
    && (shift == 1 <==> exists i :: 0 <= i < |tasks| && tasks[i].kind == "implementation")
    && (shift == 1 ==> out[0].kind == "verification" && out[0].dependsOn == [])
    && (forall i :: 0 <= i < |tasks| ==> TaskOf(out, shift, i).kind == tasks[i].kind)
    && (forall i :: 0 <= i < |tasks| ==>
          TaskOf(out, shift, i).dependsOn == if shift == 1 && tasks[i].kind == "implementation" then [out[0].id] else [])
  }

  lemma EnsuredMeaning(tasks: seq<NormalTask>) returns (shift: nat)
    ensures Ensured(tasks, EnsureVerification(tasks), shift)
  {
    var out := EnsureVerification(tasks);
    if NeedsVerification(tasks) {
      shift := 1;
      var verification := NextId(SYNTHETIC, IdsOf(tasks));
      forall i | 0 <= i < |tasks|
        ensures out[i + 1] == tasks[i].(dependsOn := if tasks[i].kind == "implementation" then [verification] else [])
      {
      }
      var i :| 0 <= i < |tasks| && IsImplementation(tasks[i]);
      assert tasks[i].kind == "implementation";
    } else {
      shift := 0;
      forall i | 0 <= i < |tasks| ensures tasks[i].kind != "implementation" { assert !IsImplementation(tasks[i]); }
    }
  }

  /** What the output says of the records. */
  ghost predicate OutputIs(records: seq<RawTask>, out: seq<NormalTask>, shift: nat) {
    && shift <= 1 && KindsKept(records, out, shift)
    && (shift == 1 <==> exists i :: 0 <= i < |records| && TaskOf(out, shift, i).kind == "implementation")
    && (shift == 1 ==> out[0].kind == "verification" && out[0].dependsOn == [])
    && (forall i :: 0 <= i < |records| ==>
          TaskOf(out, shift, i).dependsOn == if shift == 1 && TaskOf(out, shift, i).kind == "implementation" then [out[0].id] else [])
  }

  lemma EnsuredOutput(records: seq<RawTask>, tasks: seq<NormalTask>, out: seq<NormalTask>, shift: nat)
    requires Ensured(tasks, out, shift) && |tasks| == |records|
    requires forall i :: 0 <= i < |records| ==> KindKept(records[i], tasks[i].kind)
    ensures OutputIs(records, out, shift)
  {
    forall i | 0 <= i < |records|
      ensures KindKept(records[i], TaskOf(out, shift, i).kind)
      ensures TaskOf(out, shift, i).dependsOn == if shift == 1 && TaskOf(out, shift, i).kind == "implementation" then [out[0].id] else []
    {
      assert tasks[i].kind == TaskOf(out, shift, i).kind;
    }
    if shift == 1 {
      var i :| 0 <= i < |tasks| && tasks[i].kind == "implementation";
      assert TaskOf(out, shift, i).kind == "implementation";
    } else {
      forall i | 0 <= i < |records| ensures TaskOf(out, shift, i).kind != "implementation" {
        assert tasks[i].kind == TaskOf(out, shift, i).kind;
      }
    }
  }

  /** The verification task is inserted exactly when some record becomes an implementation task.
      Then it comes first, is of kind "verification" and depends on nothing; exactly the
      implementation tasks depend on it, and nothing else is depended on. Otherwise no task
      depends on anything. */
  lemma OutputMeaning(records: seq<RawTask>) returns (shift: nat)
    ensures OutputIs(records, Normalize(records), shift)
  {
    var tasks := NormalizeTasks(records);
    shift := EnsuredMeaning(tasks);
    forall i | 0 <= i < |records| ensures KindKept(records[i], tasks[i].kind) { NormalizedKind(records, i); }
    EnsuredOutput(records, tasks, EnsureVerification(tasks), shift);
  }

  lemma NormalizedKind(records: seq<RawTask>, i: nat)
    requires i < |records|
    ensures KindKept(records[i], NormalizeTasks(records)[i].kind)
  {
    KindOfTask(records[i], Assign(records).ids[i], Assign(records).firstByRaw);
  }

  lemma LastAssigned(records: seq<RawTask>) returns (last: string)
    requires records != []
    ensures var n := |records| - 1;
      && Assign(records).ids == Assign(records[..n]).ids + [last]
      && last == NextId(BaseId(records[n], n), Assign(records[..n]).seen)
  {
    var n := |records| - 1;
    last := NextId(BaseId(records[n], n), Assign(records[..n]).seen);
  }

  /** The ids so far are not changed by later records. */
  lemma {:induction false} EarlierIds(records: seq<RawTask>, i: nat)
    requires i <= |records|
    ensures Assign(records[..i]).ids <= Assign(records).ids
  {
    if i == |records| {
      assert records[..i] == records;
    } else {
      var before := records[..|records| - 1];
      assert before[..i] == records[..i];
      EarlierIds(before, i);
      AssignGrows(records);
      PrefixOfPrefix(Assign(records[..i]).ids, Assign(before).ids, Assign(records).ids);
    }
  }

  lemma AssignGrows(records: seq<RawTask>)
    requires records != []
    ensures Assign(records[..|records| - 1]).ids <= Assign(records).ids
  {
    var last := LastAssigned(records);
  }

  lemma PrefixOfPrefix(a: seq<string>, b: seq<string>, c: seq<string>)
    requires a <= b <= c
    ensures a <= c
  {
  }

  lemma AssignedAt(records: seq<RawTask>, i: nat)
    requires i < |records|
    ensures Assign(records).ids[..i] == Assign(records[..i]).ids
    ensures Assign(records).ids[i] == NextId(BaseId(records[i], i), Assign(records[..i]).seen)
  {
    EarlierIds(records, i);
    EarlierIds(records, i + 1);
    assert |Assign(records[..i]).ids| == i && |Assign(records[..i + 1]).ids| == i + 1;
    var last := LastAssigned(records[..i + 1]);
    assert records[..i + 1][..i] == records[..i];
    assert Assign(records).ids[i] == Assign(records[..i + 1]).ids[i] == last;
  }

  /** `id` is the base if that is not taken, else the base with the lowest number from two on that is not. */
  ghost predicate Chosen(base: string, taken: seq<string>, id: string) {
    && id !in taken
    && if base !in taken then id == base
       else exists n: nat :: n >= 2 && id == base + "-" + Text.Decimal(n)
              && forall m: nat :: 2 <= m < n ==> base + "-" + Text.Decimal(m) in taken
  }

  lemma NextIdChosen(base: string, existing: set<string>, taken: seq<string>)
    requires forall id :: id in existing <==> id in taken
    ensures Chosen(base, taken, NextId(base, existing))
  {
    NextIdIsFirst(base, existing);
    if base in existing {
      var n: nat :| n >= 2 && NextId(base, existing) == Candidate(base, n) && AllTaken(base, existing, n);
      forall m: nat | 2 <= m < n ensures base + "-" + Text.Decimal(m) in taken { assert Candidate(base, m) in existing; }
      assert Candidate(base, n) == base + "-" + Text.Decimal(n);
    }
  }

  /** What a record asks to be called: its raw id if that starts with "task-", else its position, counted from one. */
  function Asked(t: RawTask, i: nat): string {
    if t.id.Some? && "task-" <= t.id.value then t.id.value else "task-live-planning-" + Text.Decimal(i + 1)
  }

  /** Each output task is called what its record asks for, with the lowest free number if an earlier
      one is called that; the inserted task has the reserved name on the same terms. */
  lemma IdsMeaning(records: seq<RawTask>) returns (shift: nat, ids: seq<string>)
    ensures var out := Normalize(records);
      && |ids| == |records| && |out| == |records| + shift && shift <= 1
      && (forall i :: 0 <= i < |records| ==> TaskOf(out, shift, i).id == ids[i])
      && (forall i :: 0 <= i < |records| ==> Chosen(Asked(records[i], i), ids[..i], ids[i]))
      && (shift == 1 ==> Chosen("task-live-planning-pre-handoff-verification", ids, out[0].id))
  {
    ids := Assign(records).ids;
    AssignedChosen(records);
    TaskIds(records);
    shift := EnsuredIds(NormalizeTasks(records), ids);
  }

  lemma AssignedChosen(records: seq<RawTask>)
    ensures var ids := Assign(records).ids; forall i :: 0 <= i < |records| ==> Chosen(Asked(records[i], i), ids[..i], ids[i])
  {
    var ids := Assign(records).ids;
    forall i | 0 <= i < |records| ensures Chosen(Asked(records[i], i), ids[..i], ids[i]) { AssignedChosenAt(records, i); }
  }

  lemma AssignedChosenAt(records: seq<RawTask>, i: nat)
    requires i < |records|
    ensures Chosen(Asked(records[i], i), Assign(records).ids[..i], Assign(records).ids[i])
  {
    AssignedAt(records, i);
    var before := Assign(records[..i]);
    assert Asked(records[i], i) == BaseId(records[i], i);
    NextIdChosen(BaseId(records[i], i), before.seen, before.ids);
  }

  lemma TaskIds(records: seq<RawTask>)
    ensures forall i :: 0 <= i < |records| ==> NormalizeTasks(records)[i].id == Assign(records).ids[i]
  {
  }

  lemma EnsuredIds(tasks: seq<NormalTask>, ids: seq<string>) returns (shift: nat)
    requires |ids| == |tasks| && forall i :: 0 <= i < |tasks| ==> tasks[i].id == ids[i]
    ensures var out := EnsureVerification(tasks);
      && |out| == |tasks| + shift && shift <= 1
      && (forall i :: 0 <= i < |tasks| ==> TaskOf(out, shift, i).id == ids[i])
      && (shift == 1 ==> Chosen("task-live-planning-pre-handoff-verification", ids, out[0].id))
  {
    shift := if NeedsVerification(tasks) then 1 else 0;
    EnsuredShape(tasks, ids);
    SameIds(tasks, ids);
    NextIdChosen(SYNTHETIC, IdsOf(tasks), ids);
    assert shift == 1 ==> EnsureVerification(tasks)[0].id == NextId(SYNTHETIC, IdsOf(tasks));
  }

  lemma SameIds(tasks: seq<NormalTask>, ids: seq<string>)
    requires |ids| == |tasks| && forall i :: 0 <= i < |tasks| ==> tasks[i].id == ids[i]
    ensures forall id :: id in IdsOf(tasks) <==> id in ids
  {
    forall id | id in ids ensures id in IdsOf(tasks) {
      var i :| 0 <= i < |ids| && ids[i] == id;
      assert tasks[i].id == id;
    }
  }
}
