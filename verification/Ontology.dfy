/** Ontology similarity and the evolution decision. Scores are integer thousandths, rounded as the source rounds. */
module Ontology {
  import opened Prelude

  datatype Field = Field(name: string, kind: string, description: Option<string>)

  type Names = map<string, Field>

  /** `description ?? ""` */
  function Description(f: Field): string {
    match f.description
    case None => ""
    case Some(text) => text
  }

  /** Fields by name; of several fields with one name the last wins. */
  function ByName(fields: seq<Field>): Names {
    if fields == [] then map[]
    else ByName(fields[..|fields| - 1])[fields[|fields| - 1].name := fields[|fields| - 1]]
  }

  predicate IsLast(fields: seq<Field>, name: string, i: int) {
    0 <= i < |fields| && fields[i].name == name && forall j :: i < j < |fields| ==> fields[j].name != name
  }

  lemma {:induction false} LastWins(fields: seq<Field>, i: int)
    requires 0 <= i < |fields| && IsLast(fields, fields[i].name, i)
    ensures fields[i].name in ByName(fields) && ByName(fields)[fields[i].name] == fields[i]
  {
    var n := |fields| - 1;
    if i < n {
      assert fields[..n][i] == fields[i] && forall j :: i < j < n ==> fields[..n][j] == fields[j];
      LastWins(fields[..n], i);
      assert fields[n].name != fields[i].name;
    }
  }

  // ---------- measureOntologySimilarity ----------

  function Union(a: Names, b: Names): set<string> { a.Keys + b.Keys }

  function Shared(a: Names, b: Names): set<string> { a.Keys * b.Keys }

  function SameKind(a: Names, b: Names): set<string> {
    set name | name in Shared(a, b) && a[name].kind == b[name].kind
  }

  function SameField(a: Names, b: Names): set<string> {
    set name | name in Shared(a, b) && a[name].kind == b[name].kind && Description(a[name]) == Description(b[name])
  }

  /** `part / whole` to the nearest thousandth, halves up. */
  function Thousandths(part: nat, whole: nat): nat
    requires whole > 0
  {
    (2000 * part + whole) / (2 * whole)
  }

  function Clamp(x: nat): nat { if x > 1000 then 1000 else x }

  function Share(part: nat, whole: nat): nat { if whole == 0 then 0 else Clamp(Thousandths(part, whole)) }

  /** 0.5, 0.3 and 0.2 of three rounded shares, rounded again. */
  function Blend(names: nat, kinds: nat, fields: nat): nat {
    Clamp((5 * names + 3 * kinds + 2 * fields + 5) / 10)
  }

  datatype Similarity = Similarity(score: nat, nameOverlap: nat, typeMatch: nat, exactMatch: nat)

  function Compare(a: Names, b: Names): Similarity {
    if Union(a, b) == {} then Similarity(1000, 1000, 1000, 1000)
    else
      var names := Share(|Shared(a, b)|, |Union(a, b)|);
      var kinds := Share(|SameKind(a, b)|, |Shared(a, b)|);
      var fields := Share(|SameField(a, b)|, |Shared(a, b)|);
      Similarity(Blend(names, kinds, fields), names, kinds, fields)
  }

  function MeasureOntologySimilarity(previous: seq<Field>, current: seq<Field>): Similarity {
    Compare(ByName(previous), ByName(current))
  }

  // ---------- its laws ----------

  lemma Symmetric(a: Names, b: Names)
    ensures Compare(a, b) == Compare(b, a)
  {
    assert Union(a, b) == Union(b, a) && Shared(a, b) == Shared(b, a);
    assert SameKind(a, b) == SameKind(b, a) && SameField(a, b) == SameField(b, a);
  }

  lemma Subsets(a: Names, b: Names)
    ensures |SameField(a, b)| <= |SameKind(a, b)| <= |Shared(a, b)| <= |Union(a, b)|
    ensures |SameField(a, b)| == |Shared(a, b)| <==> SameField(a, b) == Shared(a, b)
    ensures |Shared(a, b)| == |Union(a, b)| <==> a.Keys == b.Keys
  {
    SubsetSize(SameField(a, b), SameKind(a, b));
    SubsetSize(SameKind(a, b), Shared(a, b));
    SubsetSize(Shared(a, b), Union(a, b));
    SubsetSize(SameField(a, b), Shared(a, b));
    if Shared(a, b) == Union(a, b) {
      assert forall name :: name in a.Keys <==> name in b.Keys by {
        assert forall name :: name in Union(a, b) <==> name in Shared(a, b);
      }
    }
    if a.Keys == b.Keys { assert Shared(a, b) == Union(a, b); }
  }

  lemma SubsetSize(x: set<string>, y: set<string>)
    requires x <= y
    ensures |x| <= |y| && (|x| == |y| <==> x == y)
  {
    assert y == x + (y - x);
    assert |y| == |x| + |y - x|;
  }

  lemma DivisionBounds(x: nat, d: nat, k: nat)
    requires d > 0
    ensures x / d >= k <==> x >= k * d
  {
    assert x == d * (x / d) + x % d;
    if x / d >= k { ProductMonotone(d, k, x / d); } else { ProductMonotone(d, x / d + 1, k); }
  }

  lemma ProductMonotone(d: nat, i: nat, j: nat)
    requires i <= j
    ensures d * i <= d * j
  {
  }

  /** When a rounded share reaches `k` thousandths. */
  lemma ShareAtLeast(part: nat, whole: nat, k: nat)
    requires whole > 0 && k <= 1000
    ensures Share(part, whole) >= k <==> 2000 * part + whole >= 2 * k * whole
  {
    DivisionBounds(2000 * part + whole, 2 * whole, k);
    assert k * (2 * whole) == 2 * k * whole;
  }

  lemma ShareMonotone(p: nat, q: nat, whole: nat)
    requires p <= q
    ensures Share(p, whole) <= Share(q, whole)
  {
    if whole > 0 {
      var k := Share(p, whole);
      ShareAtLeast(p, whole, k);
      ShareAtLeast(q, whole, k);
    }
  }

  lemma FullShare(part: nat, whole: nat)
    requires whole > 0 && part <= whole
    ensures part == whole ==> Share(part, whole) == 1000
    ensures part < whole && whole < 400 ==> Share(part, whole) <= 997
  {
    ShareAtLeast(part, whole, 1000);
    ShareAtLeast(part, whole, 998);
  }

  /** The result is within [0, 1], and an exact match is never better than a type match. */
  lemma Bounds(a: Names, b: Names)
    ensures Compare(a, b).score <= 1000 && Compare(a, b).nameOverlap <= 1000
    ensures Compare(a, b).exactMatch <= Compare(a, b).typeMatch <= 1000
  {
    Subsets(a, b);
    ShareMonotone(|SameField(a, b)|, |SameKind(a, b)|, |Shared(a, b)|);
  }

  /** The same names, with the same types and descriptions; a missing description is an empty one. */
  ghost predicate Agree(a: Names, b: Names) {
    a.Keys == b.Keys && forall name :: name in a ==> a[name].kind == b[name].kind && Description(a[name]) == Description(b[name])
  }

  lemma AgreeByCounts(a: Names, b: Names)
    ensures Agree(a, b) <==> a.Keys == b.Keys && SameField(a, b) == Shared(a, b)
  {
    if a.Keys == b.Keys && SameField(a, b) == Shared(a, b) {
      forall name | name in a ensures a[name].kind == b[name].kind && Description(a[name]) == Description(b[name]) {
        assert name in Shared(a, b);
      }
    }
  }

  lemma AgreementScores(a: Names, b: Names)
    requires Agree(a, b)
    ensures Compare(a, b) == Similarity(1000, 1000, 1000, 1000)
  {
    AgreeByCounts(a, b);
    Subsets(a, b);
    if Union(a, b) != {} {
      assert Shared(a, b) == Union(a, b);
      FullShare(|Shared(a, b)|, |Union(a, b)|);
    }
  }

  /** While fewer than 400 names are involved, a score of 1 means the ontologies agree. */
  lemma PerfectIffAgree(a: Names, b: Names)
    requires |Union(a, b)| < 400
    ensures Compare(a, b).score == 1000 <==> Agree(a, b)
  {
    if Agree(a, b) {
      AgreementScores(a, b);
    } else {
      AgreeByCounts(a, b);
      Subsets(a, b);
      var c := Compare(a, b);
      if a.Keys != b.Keys {
        FullShare(|Shared(a, b)|, |Union(a, b)|);
      } else {
        assert Shared(a, b) == Union(a, b);
        FullShare(|SameField(a, b)|, |Shared(a, b)|);
      }
    }
  }

  /** The first `n` names of the form "", "x", "xx" and so on. */
  function Marks(n: nat): set<string> {
    if n == 0 then {} else Marks(n - 1) + {seq(n - 1, _ => 'x')}
  }

  lemma {:induction false} MarksCount(n: nat)
    ensures |Marks(n)| == n && (forall name :: name in Marks(n) ==> |name| < n) && (n > 0 ==> "" in Marks(n))
  {
    if n > 0 {
      MarksCount(n - 1);
      var last := seq(n - 1, _ => 'x');
      assert last !in Marks(n - 1);
      if n == 1 { assert last == ""; }
    }
  }

  function Plain(names: set<string>): Names { map name | name in names :: Field(name, "t", None) }

  function Changed(names: set<string>): Names {
    map name | name in names :: Field(name, "t", if name == "" then Some("changed") else None)
  }

  lemma OneChange(names: set<string>)
    requires "" in names
    ensures
      var a, b := Plain(names), Changed(names);
      Union(a, b) == names && Shared(a, b) == names && SameKind(a, b) == names && SameField(a, b) == names - {""} && !Agree(a, b)
  {
  }

  /** From 400 names on, the roundings hide a difference: one changed description still scores 1. */
  lemma RoundingHidesOneChange(names: set<string>)
    requires "" in names && |names| >= 400
    ensures Compare(Plain(names), Changed(names)).score == 1000 && !Agree(Plain(names), Changed(names))
  {
    var n := |names|;
    OneChange(names);
    assert |names - {""}| == n - 1;
    FullShare(n, n);
    ShareAtLeast(n - 1, n, 998);
    BlendFull(Share(n - 1, n));
  }

  lemma BlendFull(fields: nat)
    requires 998 <= fields <= 1000
    ensures Blend(1000, 1000, fields) == 1000
  {
  }

  /** For ontologies with `n` names between them, a score of 1 means agreement exactly when `n` is below 400. */
  lemma PerfectMeansAgreementIff(n: nat)
    ensures (forall a, b :: |Union(a, b)| == n ==> (Compare(a, b).score == 1000 <==> Agree(a, b))) <==> n < 400
  {
    if n < 400 {
      forall a, b | |Union(a, b)| == n ensures Compare(a, b).score == 1000 <==> Agree(a, b) { PerfectIffAgree(a, b); }
    } else {
      MarksCount(n);
      RoundingHidesOneChange(Marks(n));
      OneChange(Marks(n));
      assert |Union(Plain(Marks(n)), Changed(Marks(n)))| == n;
    }
  }

  // ---------- the measure in its own terms ----------

  /** `t` is `part / whole` to the nearest thousandth, halves up. */
  predicate NearestThousandth(t: nat, part: nat, whole: nat) {
    (2 * t - 1) * whole <= 2000 * part < (2 * t + 1) * whole
  }

  lemma ShareIsNearest(part: nat, whole: nat)
    requires part <= whole && whole > 0
    ensures NearestThousandth(Share(part, whole), part, whole)
  {
    var t := Share(part, whole);
    ShareAtLeast(part, whole, t);
    assert 2000 * part + whole >= 2 * t * whole;
    if t < 1000 {
      ShareAtLeast(part, whole, t + 1);
    }
    NearestFromBounds(t, part, whole);
  }

  lemma NearestFromBounds(t: nat, part: nat, whole: nat)
    requires part <= whole && whole > 0 && t <= 1000 && 2000 * part + whole >= 2 * t * whole
    requires t < 1000 ==> 2000 * part + whole < 2 * (t + 1) * whole
    ensures NearestThousandth(t, part, whole)
  {
    assert 2 * (t + 1) * whole == 2 * t * whole + 2 * whole;
    assert (2 * t - 1) * whole == 2 * t * whole - whole && (2 * t + 1) * whole == 2 * t * whole + whole;
  }

  lemma BlendIsNearest(names: nat, kinds: nat, fields: nat)
    requires names <= 1000 && kinds <= 1000 && fields <= 1000
    ensures var sum, s := 5 * names + 3 * kinds + 2 * fields, Blend(names, kinds, fields);
      s <= 1000 && 20 * s - 10 <= 2 * sum < 20 * s + 10
  {
  }

  lemma {:induction false} ByNameHas(fields: seq<Field>, name: string)
    ensures name in ByName(fields) <==> exists i :: 0 <= i < |fields| && fields[i].name == name
  {
    if fields != [] {
      var n := |fields| - 1;
      ByNameHas(fields[..n], name);
      if i :| 0 <= i < n && fields[..n][i].name == name { assert fields[i].name == name; }
      if i :| 0 <= i < n && fields[i].name == name { assert fields[..n][i].name == name; }
    }
  }

  /** Of all names, the common ones; of those, the ones with equal types; of those, the ones
      with equal descriptions: three shares to the nearest thousandth, and 0.5, 0.3 and 0.2 of
      them, again to the nearest thousandth. Without common names the latter two are 0; without
      names everything is 1. */
  lemma MeasureMeaning(a: Names, b: Names)
    ensures var all := set name | name in a.Keys + b.Keys :: name;
      var common := set name | name in a && name in b :: name;
      var alike := set name | name in a && name in b && a[name].kind == b[name].kind :: name;
      var same := set name | name in a && name in b && a[name].kind == b[name].kind
                             && (if a[name].description.Some? then a[name].description.value else "")
                             == (if b[name].description.Some? then b[name].description.value else "") :: name;
      var c := Compare(a, b);
      && (all == {} ==> c == Similarity(1000, 1000, 1000, 1000))
      && (all != {} ==> NearestThousandth(c.nameOverlap, |common|, |all|))
      && (all != {} && common == {} ==> c.typeMatch == 0 && c.exactMatch == 0)
      && (common != {} ==> NearestThousandth(c.typeMatch, |alike|, |common|) && NearestThousandth(c.exactMatch, |same|, |common|))
      && 20 * c.score - 10 <= 2 * (5 * c.nameOverlap + 3 * c.typeMatch + 2 * c.exactMatch) < 20 * c.score + 10
  {
    SetsAreTheirs(a, b);
    Subsets(a, b);
    Bounds(a, b);
    if Union(a, b) != {} {
      ShareIsNearest(|Shared(a, b)|, |Union(a, b)|);
      BlendIsNearest(Compare(a, b).nameOverlap, Compare(a, b).typeMatch, Compare(a, b).exactMatch);
    }
    if Shared(a, b) != {} {
      ShareIsNearest(|SameKind(a, b)|, |Shared(a, b)|);
      ShareIsNearest(|SameField(a, b)|, |Shared(a, b)|);
    }
  }

  lemma SetsAreTheirs(a: Names, b: Names)
    ensures Union(a, b) == set name | name in a.Keys + b.Keys :: name
    ensures Shared(a, b) == set name | name in a && name in b :: name
    ensures SameKind(a, b) == set name | name in a && name in b && a[name].kind == b[name].kind :: name
    ensures SameField(a, b) ==
      set name | name in a && name in b && a[name].kind == b[name].kind
                 && (if a[name].description.Some? then a[name].description.value else "")
                 == (if b[name].description.Some? then b[name].description.value else "") :: name
  {
  }

  // ---------- decideEvolution ----------

  const DEFAULT_THRESHOLD := 0.95
  const MAX_GENERATIONS := 30

  datatype Decision = Exhausted(cap: int) | FirstGeneration | Converged(similarity: Similarity) | Continue(similarity: Similarity)

  function DecideEvolution(generation: int, current: seq<Field>, previous: Option<seq<Field>>,
                           maxGenerations: Option<int>, threshold: Option<real>): Decision
  {
    var cap := if maxGenerations.Some? then maxGenerations.value else MAX_GENERATIONS;
    var bar := if threshold.Some? then threshold.value else DEFAULT_THRESHOLD;
    if generation >= cap then Exhausted(cap)
    else if previous.None? then FirstGeneration
    else
      var similarity := MeasureOntologySimilarity(previous.value, current);
      if similarity.score as real / 1000.0 >= bar then Converged(similarity) else Continue(similarity)
  }

  lemma ScoreAtBar(a: Names, b: Names)
    requires Union(a, b) != {}
    ensures Compare(a, b).score >= 950 ==> 2000 * |Shared(a, b)| >= 1797 * |Union(a, b)|
    ensures SameField(a, b) == Shared(a, b) ==> (Compare(a, b).score >= 950 <==> 2000 * |Shared(a, b)| >= 1797 * |Union(a, b)|)
  {
    var c := Compare(a, b);
    Bounds(a, b);
    ShareAtLeast(|Shared(a, b)|, |Union(a, b)|, 899);
    if SameField(a, b) == Shared(a, b) && Shared(a, b) != {} {
      assert SameKind(a, b) == Shared(a, b);
      FullShare(|Shared(a, b)|, |Shared(a, b)|);
    }
  }

  /** Through all the roundings, converging at the default threshold means that at least
      0.8985 of all names are shared; where the shared fields match exactly, that is also enough. */
  lemma ConvergedShares(generation: int, current: seq<Field>, previous: seq<Field>, maxGenerations: Option<int>)
    requires !DecideEvolution(generation, current, Some(previous), maxGenerations, None).Exhausted?
    ensures
      var a, b := ByName(previous), ByName(current);
      var converged := DecideEvolution(generation, current, Some(previous), maxGenerations, None).Converged?;
      && (converged ==> 2000 * |Shared(a, b)| >= 1797 * |Union(a, b)|)
      && (SameField(a, b) == Shared(a, b) ==> (converged <==> 2000 * |Shared(a, b)| >= 1797 * |Union(a, b)|))
  {
    var a, b := ByName(previous), ByName(current);
    var score := Compare(a, b).score;
    assert score as real / 1000.0 >= 0.95 <==> score >= 950;
    if Union(a, b) != {} { ScoreAtBar(a, b); }
  }

  /** The decision: exhausted at the cap (30 by default), first generation without a previous
      ontology; otherwise converged exactly when the similarity of the two reaches the threshold
      (0.95 by default), for every cap and threshold. */
  lemma DecisionMeaning(generation: int, current: seq<Field>, previous: Option<seq<Field>>,
                        maxGenerations: Option<int>, threshold: Option<real>)
    ensures var d := DecideEvolution(generation, current, previous, maxGenerations, threshold);
      && (d.Exhausted? <==> generation >= if maxGenerations.Some? then maxGenerations.value else 30)
      && (d.FirstGeneration? <==> !d.Exhausted? && previous == None)
      && (!d.Exhausted? && previous.Some? ==>
            var c := Compare(ByName(previous.value), ByName(current));
            d == if c.score as real >= 1000.0 * (if threshold.Some? then threshold.value else 0.95) then Converged(c) else Continue(c))
  {
    if previous.Some? {
      ThousandsReach(Compare(ByName(previous.value), ByName(current)).score as real, if threshold.Some? then threshold.value else 0.95);
    }
  }

  lemma ThousandsReach(s: real, bar: real)
    ensures s / 1000.0 >= bar <==> s >= 1000.0 * bar
  {
  }
}
