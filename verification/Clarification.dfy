/** Canonical clarification questions: one per field path, best first, whatever the order of the candidates. */
module Clarification {
  import opened Prelude
  import Text
  import opened FieldPathOrder

  datatype Category = RequiredField | Goal | AcceptanceCriteria | CapabilityEnvelope | Policy | Context

  datatype Candidate = Candidate(category: Category, fieldPath: string, prompt: string, rationale: string)

  function CategoryRank(c: Category): int {
    match c
    case RequiredField => 10
    case Goal => 20
    case AcceptanceCriteria => 30
    case CapabilityEnvelope => 40
    case Policy => 50
    case Context => 60
  }

  function Compare(l: Candidate, r: Candidate): int {
    var byCategory := CompareNumber(CategoryRank(l.category), CategoryRank(r.category));
    var byPath := CompareTokens(PathTokens(l.fieldPath), PathTokens(r.fieldPath));
    var byPrompt := CompareText(l.prompt, r.prompt);
    if byCategory != 0 then byCategory
    else if byPath != 0 then byPath
    else if byPrompt != 0 then byPrompt
    else CompareText(l.rationale, r.rationale)
  }

  function ContentPriority(c: Candidate): int { if c.category.RequiredField? then 0 else 1 }

  function Choose(existing: Candidate, candidate: Candidate): Candidate {
    var byPriority := CompareNumber(ContentPriority(candidate), ContentPriority(existing));
    if byPriority > 0 then candidate
    else if byPriority < 0 then existing
    else if Compare(candidate, existing) < 0 then candidate
    else existing
  }

  // ---------- the comparator is a total preorder ----------

  lemma CompareLaws(a: Candidate, b: Candidate, c: Candidate)
    ensures Compare(a, b) == -Compare(b, a)
    ensures Compare(a, b) <= 0 && Compare(b, c) <= 0 ==> Compare(a, c) <= 0
    ensures Compare(a, b) == 0 <==>
      && a.category == b.category && CompareTokens(PathTokens(a.fieldPath), PathTokens(b.fieldPath)) == 0
      && a.prompt == b.prompt && a.rationale == b.rationale
  {
    CompareTokensLaws(PathTokens(a.fieldPath), PathTokens(b.fieldPath), PathTokens(c.fieldPath));
    CompareTokensLaws(PathTokens(b.fieldPath), PathTokens(c.fieldPath), PathTokens(a.fieldPath));
    CompareTokensLaws(PathTokens(a.fieldPath), PathTokens(c.fieldPath), PathTokens(b.fieldPath));
    CompareTextLaws(a.prompt, b.prompt, c.prompt);
    CompareTextLaws(b.prompt, c.prompt, a.prompt);
    CompareTextLaws(a.prompt, c.prompt, b.prompt);
    CompareTextLaws(a.rationale, b.rationale, c.rationale);
    CompareTextLaws(b.rationale, c.rationale, a.rationale);
  }

  // ---------- dedupe ----------

  /** The candidates kept so far: a map together with its insertion order. */
  datatype Kept = Kept(order: seq<string>, chosen: map<string, Candidate>)

  function Keep(k: Kept, c: Candidate): Kept {
    if c.fieldPath in k.chosen then Kept(k.order, k.chosen[c.fieldPath := Choose(k.chosen[c.fieldPath], c)])
    else Kept(k.order + [c.fieldPath], k.chosen[c.fieldPath := c])
  }

  function KeepAll(cs: seq<Candidate>): (k: Kept)
    ensures forall p :: p in k.order <==> p in k.chosen
  {
    if cs == [] then Kept([], map[]) else Keep(KeepAll(cs[..|cs| - 1]), cs[|cs| - 1])
  }

  function ValuesInOrder(k: Kept): seq<Candidate>
    requires forall p :: p in k.order <==> p in k.chosen
  {
    seq(|k.order|, i requires 0 <= i < |k.order| => k.chosen[k.order[i]])
  }

  function Dedupe(cs: seq<Candidate>): seq<Candidate> { ValuesInOrder(KeepAll(cs)) }

  method DedupeQuestionCandidates(candidates: seq<Candidate>) returns (r: seq<Candidate>)
    ensures r == Dedupe(candidates)
  {
    var order: seq<string> := [];
    var chosen: map<string, Candidate> := map[];
    for i := 0 to |candidates|
      invariant Kept(order, chosen) == KeepAll(candidates[..i])
    {
      assert candidates[..i + 1][..i] == candidates[..i];
      var candidate := candidates[i];
      if candidate.fieldPath in chosen {
        chosen := chosen[candidate.fieldPath := Choose(chosen[candidate.fieldPath], candidate)];
      } else {
        order := order + [candidate.fieldPath];
        chosen := chosen[candidate.fieldPath := candidate];
      }
    }
    assert candidates[..|candidates|] == candidates;
    r := ValuesInOrder(Kept(order, chosen));
  }

  /** `a` is preferred to `b` as the question of their common path. */
  predicate Better(a: Candidate, b: Candidate) {
    ContentPriority(a) > ContentPriority(b) || (ContentPriority(a) == ContentPriority(b) && Compare(a, b) < 0)
  }

  lemma BetterTransitive(a: Candidate, b: Candidate, c: Candidate)
    requires !Better(a, b) && !Better(b, c)
    ensures !Better(a, c)
  {
    CompareLaws(a, b, c);
    CompareLaws(b, c, a);
    CompareLaws(c, b, a);
    CompareLaws(a, c, b);
  }

  /** On one path, preference decides between any two different candidates. */
  lemma BetterTotal(a: Candidate, b: Candidate)
    requires a.fieldPath == b.fieldPath && !Better(a, b) && !Better(b, a)
    ensures a == b
  {
    CompareLaws(a, b, a);
  }

  lemma BetterIrreflexive(a: Candidate)
    ensures !Better(a, a)
  {
    CompareLaws(a, a, a);
  }

  lemma ChooseBest(a: Candidate, b: Candidate)
    ensures Choose(a, b) in {a, b} && !Better(a, Choose(a, b)) && !Better(b, Choose(a, b))
  {
    CompareLaws(a, b, a);
    CompareLaws(b, a, b);
    BetterIrreflexive(a);
    BetterIrreflexive(b);
  }

  /** The best of the candidates of a path. */
  ghost predicate IsBest(cs: seq<Candidate>, path: string, best: Candidate) {
    best in cs && best.fieldPath == path && forall c | c in cs && c.fieldPath == path :: !Better(c, best)
  }

  /** Every path mentioned is kept, once, with its best candidate. */
  ghost predicate BestKept(cs: seq<Candidate>, k: Kept) {
    && Distinct(k.order)
    && (forall p :: p in k.chosen <==> exists c :: c in cs && c.fieldPath == p)
    && (forall p | p in k.chosen :: IsBest(cs, p, k.chosen[p]))
  }

  lemma KeepOneMore(cs: seq<Candidate>, k: Kept, c: Candidate)
    requires BestKept(cs, k) && forall p :: p in k.order <==> p in k.chosen
    ensures BestKept(cs + [c], Keep(k, c))
  {
    var all := cs + [c];
    assert forall d :: d in all <==> d in cs || d == c;
    forall p | p in Keep(k, c).chosen ensures IsBest(all, p, Keep(k, c).chosen[p]) {
      if p != c.fieldPath {
        assert IsBest(cs, p, k.chosen[p]);
      } else if p in k.chosen {
        StillBest(cs, c, k.chosen[p]);
      } else {
        BetterIrreflexive(c);
      }
    }
  }

  lemma {:induction false} KeepsBest(cs: seq<Candidate>)
    ensures BestKept(cs, KeepAll(cs))
  {
    if cs != [] {
      var n := |cs| - 1;
      KeepsBest(cs[..n]);
      KeepOneMore(cs[..n], KeepAll(cs[..n]), cs[n]);
      assert cs == cs[..n] + [cs[n]];
    }
  }

  lemma StillBest(cs: seq<Candidate>, c: Candidate, best: Candidate)
    requires IsBest(cs, c.fieldPath, best)
    ensures IsBest(cs + [c], c.fieldPath, Choose(best, c))
  {
    var chosen := Choose(best, c);
    ChooseBest(best, c);
    forall d | d in cs + [c] && d.fieldPath == c.fieldPath ensures !Better(d, chosen) {
      if d in cs { BetterTransitive(d, best, chosen); }
    }
  }

  lemma BestUnique(cs: seq<Candidate>, path: string, a: Candidate, b: Candidate)
    requires IsBest(cs, path, a) && IsBest(cs, path, b)
    ensures a == b
  {
    BetterTotal(a, b);
  }

  lemma ChosenWithin(cs: seq<Candidate>, ds: seq<Candidate>, p: string)
    requires (forall c :: c in cs <==> c in ds) && p in KeepAll(cs).chosen
    ensures p in KeepAll(ds).chosen && KeepAll(cs).chosen[p] == KeepAll(ds).chosen[p]
  {
    KeepsBest(cs);
    KeepsBest(ds);
    var a, b := KeepAll(cs).chosen, KeepAll(ds).chosen;
    assert IsBest(cs, p, a[p]);
    assert IsBest(ds, p, a[p]);
    assert IsBest(ds, p, b[p]);
    BestUnique(ds, p, a[p], b[p]);
  }

  /** What dedupe keeps depends only on which candidates there are. */
  lemma DedupeOrderFree(cs: seq<Candidate>, ds: seq<Candidate>)
    requires forall c :: c in cs <==> c in ds
    ensures KeepAll(cs).chosen == KeepAll(ds).chosen
    ensures forall c :: c in Dedupe(cs) <==> c in Dedupe(ds)
  {
    var a, b := KeepAll(cs).chosen, KeepAll(ds).chosen;
    forall p | p in a ensures p in b && a[p] == b[p] { ChosenWithin(cs, ds, p); }
    forall p | p in b ensures p in a { ChosenWithin(ds, cs, p); }
    assert a == b;
    DedupeMembers(cs);
    DedupeMembers(ds);
  }

  lemma DedupeMembers(cs: seq<Candidate>)
    ensures forall c :: c in Dedupe(cs) <==> c.fieldPath in KeepAll(cs).chosen && c == KeepAll(cs).chosen[c.fieldPath]
    ensures forall i, j :: 0 <= i < j < |Dedupe(cs)| ==> Dedupe(cs)[i].fieldPath != Dedupe(cs)[j].fieldPath
  {
    KeepsBest(cs);
    var k := KeepAll(cs);
    forall i | 0 <= i < |k.order| ensures Dedupe(cs)[i].fieldPath == k.order[i] {
      assert IsBest(cs, k.order[i], k.chosen[k.order[i]]);
    }
    forall c: Candidate | c.fieldPath in k.chosen && c == k.chosen[c.fieldPath] ensures c in Dedupe(cs) {
      var i :| 0 <= i < |k.order| && k.order[i] == c.fieldPath;
      assert Dedupe(cs)[i] == c;
    }
  }

  // ---------- the stable sort ----------

  /** Insertion behind every element that does not compare greater, as a stable sort keeps ties. */
  function Insert(c: Candidate, sorted: seq<Candidate>): seq<Candidate> {
    if sorted == [] then [c]
    else if Compare(sorted[|sorted| - 1], c) <= 0 then sorted + [c]
    else Insert(c, sorted[..|sorted| - 1]) + [sorted[|sorted| - 1]]
  }

  function Order(cs: seq<Candidate>): seq<Candidate> {
    if cs == [] then [] else Insert(cs[|cs| - 1], Order(cs[..|cs| - 1]))
  }

  /** The questions, before ids are attached. */
  function Questions(cs: seq<Candidate>): seq<Candidate> { Order(Dedupe(cs)) }

  ghost predicate Ascending(cs: seq<Candidate>) {
    forall i, j :: 0 <= i < j < |cs| ==> Compare(cs[i], cs[j]) <= 0
  }

  ghost predicate StrictlyAscending(cs: seq<Candidate>) {
    forall i, j :: 0 <= i < j < |cs| ==> Compare(cs[i], cs[j]) < 0
  }

  lemma {:induction false} InsertCounts(c: Candidate, cs: seq<Candidate>)
    ensures multiset(Insert(c, cs)) == multiset(cs) + multiset{c}
  {
    if cs != [] {
      InsertCounts(c, cs[..|cs| - 1]);
      assert cs == cs[..|cs| - 1] + [cs[|cs| - 1]];
    }
  }

  lemma {:induction false} InsertMembers(c: Candidate, cs: seq<Candidate>)
    ensures forall d :: d in Insert(c, cs) <==> d == c || d in cs
  {
    if cs != [] {
      InsertMembers(c, cs[..|cs| - 1]);
      assert cs == cs[..|cs| - 1] + [cs[|cs| - 1]];
    }
  }

  ghost predicate NoneAbove(cs: seq<Candidate>, c: Candidate) { forall d | d in cs :: Compare(d, c) <= 0 }

  /** Nothing in an ascending list compares greater than what its last element does not. */
  lemma AllBelow(cs: seq<Candidate>, c: Candidate)
    requires cs != [] && Ascending(cs) && Compare(cs[|cs| - 1], c) <= 0
    ensures NoneAbove(cs, c)
  {
    var n := |cs| - 1;
    forall i | 0 <= i < n ensures Compare(cs[i], c) <= 0 { CompareLaws(cs[i], cs[n], c); }
  }

  lemma InsertedBelow(c: Candidate, cs: seq<Candidate>)
    requires cs != [] && Ascending(cs) && Compare(cs[|cs| - 1], c) > 0
    ensures NoneAbove(Insert(c, cs[..|cs| - 1]), cs[|cs| - 1])
  {
    var n := |cs| - 1;
    CompareLaws(cs[n], c, c);
    InsertMembers(c, cs[..n]);
    forall d | d in cs[..n] ensures Compare(d, cs[n]) <= 0 {
      var k :| 0 <= k < n && cs[..n][k] == d;
      assert cs[k] == d;
    }
  }

  lemma {:induction false} InsertAscending(c: Candidate, cs: seq<Candidate>)
    requires Ascending(cs)
    ensures Ascending(Insert(c, cs))
  {
    if cs == [] {
    } else if Compare(cs[|cs| - 1], c) <= 0 {
      AllBelow(cs, c);
    } else {
      InsertAscending(c, cs[..|cs| - 1]);
      InsertedBelow(c, cs);
    }
  }

  lemma LastCounts(cs: seq<Candidate>)
    requires cs != []
    ensures multiset(cs) == multiset(cs[..|cs| - 1]) + multiset{cs[|cs| - 1]}
  {
    assert cs == cs[..|cs| - 1] + [cs[|cs| - 1]];
  }

  lemma {:induction false} OrderCounts(cs: seq<Candidate>)
    ensures multiset(Order(cs)) == multiset(cs)
  {
    if cs != [] {
      var n := |cs| - 1;
      var rest := Order(cs[..n]);
      assert multiset(rest) == multiset(cs[..n]) by { OrderCounts(cs[..n]); }
      assert multiset(Insert(cs[n], rest)) == multiset(rest) + multiset{cs[n]} by { InsertCounts(cs[n], rest); }
      LastCounts(cs);
    }
  }

  lemma {:induction false} OrderAscending(cs: seq<Candidate>)
    ensures Ascending(Order(cs))
  {
    if cs != [] {
      OrderAscending(cs[..|cs| - 1]);
      InsertAscending(cs[|cs| - 1], Order(cs[..|cs| - 1]));
    }
  }

  lemma OrderMembers(cs: seq<Candidate>)
    ensures forall c :: c in Order(cs) <==> c in cs
  {
    OrderCounts(cs);
    forall c ensures c in Order(cs) <==> c in cs {
      assert c in multiset(Order(cs)) <==> c in multiset(cs);
    }
  }

  /** A strictly ascending list is determined by its elements. */
  lemma {:induction false} AscendingUnique(a: seq<Candidate>, b: seq<Candidate>)
    requires StrictlyAscending(a) && StrictlyAscending(b) && forall c :: c in a <==> c in b
    ensures a == b
  {
    if b != [] { assert b[0] in b; }
    if a != [] {
      assert a[0] in b && b[0] in a;
      CompareLaws(a[0], b[0], a[0]);
      assert a[0] == b[0];
      forall c | c in a[1..] ensures c in b[1..] { LaterDiffers(a, c); assert c in b; }
      forall c | c in b[1..] ensures c in a[1..] { LaterDiffers(b, c); assert c in a; }
      AscendingUnique(a[1..], b[1..]);
      assert a == [a[0]] + a[1..] && b == [b[0]] + b[1..];
    }
  }

  lemma LaterDiffers(a: seq<Candidate>, c: Candidate)
    requires StrictlyAscending(a) && a != [] && c in a[1..]
    ensures c != a[0] && c in a
  {
    var k :| 0 <= k < |a[1..]| && a[1..][k] == c;
    assert a[k + 1] == c && Compare(a[0], a[k + 1]) < 0;
    CompareLaws(c, c, c);
  }

  // ---------- canonical output ----------

  /** No two of the kept questions compare equal. */
  ghost predicate Unambiguous(cs: seq<Candidate>) {
    forall x, y :: x in Dedupe(cs) && y in Dedupe(cs) && Compare(x, y) == 0 ==> x == y
  }

  lemma QuestionsStrict(cs: seq<Candidate>)
    requires Unambiguous(cs)
    ensures StrictlyAscending(Questions(cs))
  {
    var d, q := Dedupe(cs), Questions(cs);
    OrderAscending(d);
    OrderMembers(d);
    QuestionsDistinct(cs);
    forall i, j | 0 <= i < j < |q| ensures Compare(q[i], q[j]) < 0 {
      assert q[i] in d && q[j] in d && q[i] != q[j];
    }
  }

  lemma QuestionsDistinct(cs: seq<Candidate>)
    ensures Distinct(Dedupe(cs)) && Distinct(Questions(cs))
  {
    var d, q := Dedupe(cs), Questions(cs);
    DedupeMembers(cs);
    assert Distinct(d) by {
      forall i, j | 0 <= i < j < |d| ensures d[i] != d[j] { assert d[i].fieldPath != d[j].fieldPath; }
    }
    OrderCounts(d);
    forall i, j | 0 <= i < j < |q| ensures q[i] != q[j] {
      DistinctCounts(d, q[i]);
      assert multiset(q)[q[i]] <= 1;
      TwiceCounted(q, i, j);
    }
  }

  lemma TwiceCounted(s: seq<Candidate>, i: nat, j: nat)
    requires i < j < |s|
    ensures s[i] == s[j] ==> multiset(s)[s[i]] >= 2
  {
    assert s == s[..i] + [s[i]] + s[i + 1..j] + [s[j]] + s[j + 1..];
  }

  /** What can be said of the output for given candidates: the same for every order of them,
      strictly increasing, exactly one question per field path, each the best of its path. */
  ghost predicate Canonical(cs: seq<Candidate>, ds: seq<Candidate>) {
    && Questions(ds) == Questions(cs)
    && StrictlyAscending(Questions(cs))
    && (forall q | q in Questions(cs) :: IsBest(cs, q.fieldPath, q))
    && (forall c | c in cs :: exists q :: q in Questions(cs) && q.fieldPath == c.fieldPath)
    && (forall i, j :: 0 <= i < j < |Questions(cs)| ==> Questions(cs)[i].fieldPath != Questions(cs)[j].fieldPath)
  }

  lemma UnambiguousCanonical(cs: seq<Candidate>, ds: seq<Candidate>)
    requires Unambiguous(cs) && multiset(cs) == multiset(ds)
    ensures Canonical(cs, ds)
  {
    SameMembers(cs, ds);
    DedupeOrderFree(cs, ds);
    OrderMembers(Dedupe(cs));
    OrderMembers(Dedupe(ds));
    QuestionsStrict(cs);
    QuestionsStrict(ds);
    AscendingUnique(Questions(cs), Questions(ds));
    OnePerPath(cs);
  }

  /** Alike in everything but, possibly, the path, and the paths are twins. */
  ghost predicate Twins(x: Candidate, y: Candidate) {
    x.category == y.category && x.prompt == y.prompt && x.rationale == y.rationale && TwinPaths(x.fieldPath, y.fieldPath)
  }

  /** Among the candidates, no two that are the best of their paths are twins. */
  ghost predicate TwinFree(cs: seq<Candidate>) {
    forall x: Candidate, y: Candidate :: IsBest(cs, x.fieldPath, x) && IsBest(cs, y.fieldPath, y) && Twins(x, y) ==> x == y
  }

  lemma KeptIsBest(cs: seq<Candidate>, c: Candidate)
    ensures c in Dedupe(cs) <==> IsBest(cs, c.fieldPath, c)
  {
    KeepsBest(cs);
    DedupeMembers(cs);
    var chosen, p := KeepAll(cs).chosen, c.fieldPath;
    if p in chosen {
      assert IsBest(cs, p, chosen[p]);
      if IsBest(cs, p, c) { BestUnique(cs, p, c, chosen[p]); }
    }
  }

  lemma UnambiguousIff(cs: seq<Candidate>)
    ensures Unambiguous(cs) <==> TwinFree(cs)
  {
    forall c: Candidate ensures c in Dedupe(cs) <==> IsBest(cs, c.fieldPath, c) { KeptIsBest(cs, c); }
    forall x, y ensures Compare(x, y) == 0 <==> Twins(x, y) { AmbiguousOnlyByTwins(x, y); }
  }

  /** When no two best candidates are twins, the output is canonical. */
  lemma QuestionsCanonical(cs: seq<Candidate>, ds: seq<Candidate>)
    requires TwinFree(cs) && multiset(cs) == multiset(ds)
    ensures Canonical(cs, ds)
  {
    UnambiguousIff(cs);
    UnambiguousCanonical(cs, ds);
  }

  lemma SameMembers(cs: seq<Candidate>, ds: seq<Candidate>)
    requires multiset(cs) == multiset(ds)
    ensures forall c :: c in cs <==> c in ds
  {
    forall c ensures c in cs <==> c in ds { assert c in multiset(cs) <==> c in multiset(ds); }
  }

  /** Exactly one question per path, the best, in any case. */
  lemma OnePerPath(cs: seq<Candidate>)
    ensures forall q | q in Questions(cs) :: IsBest(cs, q.fieldPath, q)
    ensures forall c | c in cs :: exists q :: q in Questions(cs) && q.fieldPath == c.fieldPath
    ensures forall i, j :: 0 <= i < j < |Questions(cs)| ==> Questions(cs)[i].fieldPath != Questions(cs)[j].fieldPath
  {
    var k, q := KeepAll(cs), Questions(cs);
    KeepsBest(cs);
    DedupeMembers(cs);
    OrderMembers(Dedupe(cs));
    QuestionsDistinct(cs);
    forall c | c in cs ensures exists x :: x in q && x.fieldPath == c.fieldPath {
      assert c.fieldPath in k.chosen;
      var x := k.chosen[c.fieldPath];
      assert IsBest(cs, c.fieldPath, x) && x in q;
    }
    forall i, j | 0 <= i < j < |q| ensures q[i].fieldPath != q[j].fieldPath {
      assert q[i] in Dedupe(cs) && q[j] in Dedupe(cs) && q[i] != q[j];
    }
  }

  // ---------- when two kept questions compare equal, order shows ----------

  ghost predicate Before(s: seq<Candidate>, x: Candidate, y: Candidate) {
    exists i, j :: 0 <= i < j < |s| && s[i] == x && s[j] == y
  }

  lemma BeforeAppend(s: seq<Candidate>, t: seq<Candidate>, x: Candidate, y: Candidate)
    requires Before(s, x, y)
    ensures Before(s + t, x, y)
  {
    var i, j :| 0 <= i < j < |s| && s[i] == x && s[j] == y;
    assert (s + t)[i] == x && (s + t)[j] == y;
  }

  lemma BeforeLast(s: seq<Candidate>, x: Candidate, y: Candidate)
    requires x in s
    ensures Before(s + [y], x, y)
  {
    var i :| 0 <= i < |s| && s[i] == x;
    assert (s + [y])[i] == x && (s + [y])[|s|] == y;
  }

  lemma {:induction false} InsertKeepsOrder(c: Candidate, cs: seq<Candidate>, x: Candidate, y: Candidate)
    requires Before(cs, x, y)
    ensures Before(Insert(c, cs), x, y)
  {
    var n := |cs| - 1;
    assert cs == cs[..n] + [cs[n]];
    if Compare(cs[n], c) <= 0 {
      BeforeAppend(cs, [c], x, y);
    } else {
      var i, j :| 0 <= i < j < |cs| && cs[i] == x && cs[j] == y;
      if j < n {
        assert cs[..n][i] == x && cs[..n][j] == y;
        InsertKeepsOrder(c, cs[..n], x, y);
        BeforeAppend(Insert(c, cs[..n]), [cs[n]], x, y);
      } else {
        assert cs[..n][i] == x;
        InsertMembers(c, cs[..n]);
        BeforeLast(Insert(c, cs[..n]), x, y);
      }
    }
  }

  /** A new element goes behind those it ties with. */
  lemma {:induction false} InsertBehindTies(c: Candidate, cs: seq<Candidate>, x: Candidate)
    requires Ascending(cs) && x in cs && Compare(x, c) == 0
    ensures Before(Insert(c, cs), x, c)
  {
    var n := |cs| - 1;
    assert cs == cs[..n] + [cs[n]];
    if Compare(cs[n], c) <= 0 {
      BeforeLast(cs, x, c);
    } else {
      if x == cs[n] { CompareLaws(x, c, x); }
      InsertBehindTies(c, cs[..n], x);
      BeforeAppend(Insert(c, cs[..n]), [cs[n]], x, c);
    }
  }

  /** The sort is stable. */
  lemma {:induction false} OrderStable(cs: seq<Candidate>, x: Candidate, y: Candidate)
    requires Before(cs, x, y) && Compare(x, y) == 0
    ensures Before(Order(cs), x, y)
  {
    var n := |cs| - 1;
    assert cs == cs[..n] + [cs[n]];
    var i, j :| 0 <= i < j < |cs| && cs[i] == x && cs[j] == y;
    if j < n {
      assert cs[..n][i] == x && cs[..n][j] == y;
      OrderStable(cs[..n], x, y);
      InsertKeepsOrder(cs[n], Order(cs[..n]), x, y);
    } else {
      assert cs[..n][i] == x;
      OrderAscending(cs[..n]);
      OrderMembers(cs[..n]);
      InsertBehindTies(y, Order(cs[..n]), x);
    }
  }

  /** The path of the first candidate comes first in the kept order. */
  lemma {:induction false} FirstPathFirst(cs: seq<Candidate>)
    requires cs != []
    ensures KeepAll(cs).order != [] && KeepAll(cs).order[0] == cs[0].fieldPath
  {
    if |cs| > 1 {
      FirstPathFirst(cs[..|cs| - 1]);
    } else {
      assert cs[..0] == [];
    }
  }

  /** Candidates brought to the front of the list put their path's question first. */
  lemma FrontedFirst(cs: seq<Candidate>, k: nat, x: Candidate, y: Candidate)
    requires k < |cs| && x in Dedupe(cs) && y in Dedupe(cs) && x != y && cs[k].fieldPath == y.fieldPath
    ensures var ds := [cs[k]] + cs[..k] + cs[k + 1..];
      multiset(ds) == multiset(cs) && Before(Dedupe(ds), y, x)
  {
    var ds := [cs[k]] + cs[..k] + cs[k + 1..];
    assert cs == cs[..k] + [cs[k]] + cs[k + 1..];
    SameMembers(cs, ds);
    DedupeOrderFree(cs, ds);
    FirstPathFirst(ds);
    DedupeMembers(cs);
    DedupeMembers(ds);
    assert Dedupe(ds)[0] == y;
    var j :| 0 <= j < |Dedupe(ds)| && Dedupe(ds)[j] == x;
    assert j != 0;
  }

  lemma FrontedShows(cs: seq<Candidate>, ds: seq<Candidate>, x: Candidate, y: Candidate)
    requires Before(Dedupe(cs), x, y) && Before(Dedupe(ds), y, x) && Compare(x, y) == 0
    ensures Questions(ds) != Questions(cs)
  {
    CompareLaws(x, y, x);
    OrderStable(Dedupe(cs), x, y);
    OrderStable(Dedupe(ds), y, x);
    QuestionsDistinct(cs);
  }

  lemma KeptIsCandidate(cs: seq<Candidate>, y: Candidate)
    requires y in Dedupe(cs)
    ensures y in cs
  {
    KeepsBest(cs);
    DedupeMembers(cs);
    assert IsBest(cs, y.fieldPath, KeepAll(cs).chosen[y.fieldPath]);
  }

  lemma ReorderedExists(cs: seq<Candidate>, x: Candidate, y: Candidate) returns (ds: seq<Candidate>)
    requires Before(Dedupe(cs), x, y) && x != y && Compare(x, y) == 0
    ensures multiset(ds) == multiset(cs) && Questions(ds) != Questions(cs)
  {
    KeptIsCandidate(cs, y);
    var k :| 0 <= k < |cs| && cs[k] == y;
    ds := [cs[k]] + cs[..k] + cs[k + 1..];
    FrontedFirst(cs, k, x, y);
    FrontedShows(cs, ds, x, y);
  }

  lemma OrderShows(cs: seq<Candidate>) returns (ds: seq<Candidate>)
    requires !Unambiguous(cs)
    ensures multiset(ds) == multiset(cs) && Questions(ds) != Questions(cs)
  {
    var x, y := AmbiguousPair(cs);
    ds := ReorderedExists(cs, x, y);
  }

  lemma AmbiguousPair(cs: seq<Candidate>) returns (x: Candidate, y: Candidate)
    requires !Unambiguous(cs)
    ensures Before(Dedupe(cs), x, y) && x != y && Compare(x, y) == 0
  {
    x, y :| x in Dedupe(cs) && y in Dedupe(cs) && Compare(x, y) == 0 && x != y;
    if !Before(Dedupe(cs), x, y) {
      TiesAreMutual(x, y);
      x, y := y, x;
    }
  }

  lemma TiesAreMutual(x: Candidate, y: Candidate)
    requires Compare(x, y) == 0
    ensures Compare(y, x) == 0
  {
    CompareLaws(x, y, x);
  }

  /** Every reordering of the candidates gives the same questions. */
  ghost predicate OrderFree(cs: seq<Candidate>) {
    forall ds | multiset(ds) == multiset(cs) :: Questions(ds) == Questions(cs)
  }

  /** The output is independent of the candidates' order exactly when no two best candidates are twins. */
  lemma QuestionsOrderFreeIff(cs: seq<Candidate>)
    ensures OrderFree(cs) <==> TwinFree(cs)
  {
    UnambiguousIff(cs);
    if Unambiguous(cs) {
      forall ds | multiset(ds) == multiset(cs) ensures Questions(ds) == Questions(cs) { UnambiguousCanonical(cs, ds); }
    } else {
      var ds := OrderShows(cs);
    }
  }

  /** Two candidates compare equal exactly when they are twins. */
  lemma AmbiguousOnlyByTwins(x: Candidate, y: Candidate)
    ensures Compare(x, y) == 0 <==> Twins(x, y)
  {
    CompareLaws(x, y, x);
    PathsCompareEqual(x.fieldPath, y.fieldPath);
  }

  // ---------- in terms of paths alone ----------

  ghost predicate PathsWithin(cs: seq<Candidate>, paths: set<string>) { forall c | c in cs :: c.fieldPath in paths }

  /** For a set of paths, every list of candidates about them gives the same questions in every
      order exactly when no two of the paths are twins. */
  lemma OrderFreeOverPathsIff(paths: set<string>)
    ensures (forall cs | PathsWithin(cs, paths) :: OrderFree(cs))
            <==> forall p, q | p in paths && q in paths && TwinPaths(p, q) :: p == q
  {
    if forall p, q | p in paths && q in paths && TwinPaths(p, q) :: p == q {
      forall cs | PathsWithin(cs, paths) ensures OrderFree(cs) { QuestionsOrderFreeIff(cs); }
    } else {
      var p, q :| p in paths && q in paths && TwinPaths(p, q) && p != q;
      var x, y := Candidate(Goal, p, "", ""), Candidate(Goal, q, "", "");
      TwinsShow(x, y);
      assert PathsWithin([x, y], paths);
    }
  }

  lemma TwinsShow(x: Candidate, y: Candidate)
    requires Twins(x, y) && x.fieldPath != y.fieldPath
    ensures !OrderFree([x, y])
  {
    DedupeTwo(x, y);
    assert [x, y][0] == x && [x, y][1] == y;
    AmbiguousOnlyByTwins(x, y);
    assert !Unambiguous([x, y]);
    UnambiguousIff([x, y]);
    QuestionsOrderFreeIff([x, y]);
  }

  lemma ThousandReads()
    ensures CanonicalInteger(Trim("1000")) == Some(DEFAULT_RANK)
  {
    assert Trim("1000") == "1000";
    assert "1000"[..3] == "100" && "100"[..2] == "10" && "10"[..1] == "1" && "1"[..0] == "";
    assert Text.DecimalValue("1") == 1;
    assert Text.DecimalValue("10") == 10;
    assert Text.DecimalValue("100") == 100;
    assert Text.DecimalValue("1000") == 1000;
  }

  lemma TwinExample()
    ensures PaddedTwin("1000", "0000001000")
  {
    ThousandReads();
    assert Zeros(6) == "000000";
  }

  lemma TwoSegments(head: string, s: string)
    requires '.' !in head && '.' !in s
    ensures Text.Split(head + ['.'] + s, '.') == [head, s]
  {
    Text.SplitAtSeparator(head, s, '.');
    Text.SplitWhole(s, '.');
  }

  lemma DedupeTwo(x: Candidate, y: Candidate)
    requires x.fieldPath != y.fieldPath
    ensures Dedupe([x, y]) == [x, y]
  {
    assert [x, y][..1] == [x] && [x][..0] == [];
    assert KeepAll([x]) == Kept([x.fieldPath], map[x.fieldPath := x]);
    assert KeepAll([x, y]) == Keep(KeepAll([x]), y);
  }

  /** Twin paths exist: under any parent path, "1000" and "0000001000". */
  lemma TwinPathsExist(parent: string)
    requires '.' !in parent
    ensures TwinPaths(parent + ['.'] + "1000", parent + ['.'] + "0000001000")
  {
    TwinExample();
    TwoSegments(parent, "1000");
    TwoSegments(parent, "0000001000");
  }

  /** A concrete family for the two helpers on their own, outside the paths their caller builds:
      questions about entries "1000" and "0000001000" come out in the order they went in. */
  lemma OrderShowsExample(parent: string, category: Category, prompt: string, rationale: string)
    requires '.' !in parent
    ensures var x := Candidate(category, parent + ['.'] + "1000", prompt, rationale);
      var y := Candidate(category, parent + ['.'] + "0000001000", prompt, rationale);
      !OrderFree([x, y])
  {
    var x := Candidate(category, parent + ['.'] + "1000", prompt, rationale);
    var y := Candidate(category, parent + ['.'] + "0000001000", prompt, rationale);
    TwinPathsExist(parent);
    assert |x.fieldPath| != |y.fieldPath|;
    TwinsShow(x, y);
  }

  // ---------- which question survives, and in which order ----------

  /** The categories in the order of the questions. */
  function Place(c: Category): nat {
    match c
    case RequiredField => 0
    case Goal => 1
    case AcceptanceCriteria => 2
    case CapabilityEnvelope => 3
    case Policy => 4
    case Context => 5
  }

  /** The same text, or one that sorts before. */
  predicate NotAbove(a: string, b: string) { a == b || Text.Less(a, b) }

  /** `q` comes no later than `c`: by prompt, then by rationale. */
  predicate ContentNotAbove(q: Candidate, c: Candidate) {
    NotAbove(q.prompt, c.prompt) && (q.prompt == c.prompt ==> NotAbove(q.rationale, c.rationale))
  }

  /** The question of a path is not a required-field one if the path has any other candidate;
      among candidates alike in that, it has the earliest category, then the least prompt, then
      the least rationale. */
  lemma SurvivorMeaning(cs: seq<Candidate>, q: Candidate, c: Candidate)
    requires q in Questions(cs) && c in cs && c.fieldPath == q.fieldPath
    ensures c.category != RequiredField ==> q.category != RequiredField
    ensures (c.category == RequiredField <==> q.category == RequiredField) ==>
      Place(q.category) <= Place(c.category) && (q.category == c.category ==> ContentNotAbove(q, c))
  {
    QuestionIsBest(cs, q);
    SamePathTies(c.fieldPath);
    NotBefore(c, q);
  }

  lemma QuestionIsBest(cs: seq<Candidate>, q: Candidate)
    requires q in Questions(cs)
    ensures forall c | c in cs && c.fieldPath == q.fieldPath :: !Better(c, q)
  {
    OnePerPath(cs);
    assert IsBest(cs, q.fieldPath, q);
  }

  lemma SamePathTies(path: string)
    ensures CompareTokens(PathTokens(path), PathTokens(path)) == 0
  {
    CompareTokensLaws(PathTokens(path), PathTokens(path), []);
  }

  lemma NotBefore(c: Candidate, q: Candidate)
    requires !Better(c, q) && CompareTokens(PathTokens(c.fieldPath), PathTokens(q.fieldPath)) == 0
    ensures c.category != RequiredField ==> q.category != RequiredField
    ensures (c.category == RequiredField <==> q.category == RequiredField) ==>
      Place(q.category) <= Place(c.category) && (q.category == c.category ==> ContentNotAbove(q, c))
  {
    CompareTextLaws(c.prompt, q.prompt, c.prompt);
    CompareTextLaws(c.rationale, q.rationale, c.rationale);
    Text.LessTotal(c.prompt, q.prompt);
    Text.LessTotal(c.rationale, q.rationale);
  }

  /** Questions never go back in category; within one, not in path; and between paths that
      compare equal, not in prompt and rationale. */
  lemma OrderMeaning(cs: seq<Candidate>, i: nat, j: nat)
    requires i < j < |Questions(cs)|
    ensures var a, b := Questions(cs)[i], Questions(cs)[j];
      var byPath := CompareTokens(PathTokens(a.fieldPath), PathTokens(b.fieldPath));
      && Place(a.category) <= Place(b.category)
      && (a.category == b.category ==> byPath <= 0 && (byPath == 0 ==> ContentNotAbove(a, b)))
  {
    OrderAscending(Dedupe(cs));
    var a, b := Questions(cs)[i], Questions(cs)[j];
    assert Compare(a, b) <= 0;
    Text.LessTotal(a.prompt, b.prompt);
    Text.LessTotal(a.rationale, b.rationale);
  }
}
