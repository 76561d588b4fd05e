/** Rubric validation, semantic confidence and judge consensus, over exact reals. */
module Evaluation {
  import opened Prelude

  datatype Dimension = AcMet | CodeQuality | Security | RegressionRisk | ReleaseReadiness

  const DIMENSIONS: seq<Dimension> := [AcMet, CodeQuality, Security, RegressionRisk, ReleaseReadiness]

  type Rubric = map<Dimension, real>

  lemma AllDimensions(d: Dimension) returns (k: nat)
    ensures k < |DIMENSIONS| && DIMENSIONS[k] == d
  {
    k := match d
      case AcMet => 0
      case CodeQuality => 1
      case Security => 2
      case RegressionRisk => 3
      case ReleaseReadiness => 4;
  }

  // ---------- validateRubric ----------

  /** A member name of the parsed rubric object: a dimension's own name, or any other. */
  datatype Key = Of(d: Dimension) | Other(name: string)

  /** A member's value: a number, or anything else. */
  datatype Entry = Number(value: real) | NotNumeric

  datatype RubricError = UnknownKey(name: string) | MissingKey(d: Dimension) | ValueNotNumeric(d: Dimension) | OutOfRange(d: Dimension)

  predicate GoodValue(rubric: map<Key, Entry>, d: Dimension) {
    Of(d) in rubric && rubric[Of(d)].Number? && 0.0 <= rubric[Of(d)].value <= 1.0
  }

  /** The rubrics that pass: the five dimensions and nothing else, each a number in [0, 1]. */
  ghost predicate Acceptable(rubric: map<Key, Entry>) {
    (forall key | key in rubric :: key.Of?) && forall d :: GoodValue(rubric, d)
  }

  predicate InUnit(r: Rubric) { forall d :: d in r && 0.0 <= r[d] <= 1.0 }

  method UnknownKeyErrors(keys: seq<Key>) returns (errors: seq<RubricError>)
    ensures errors == [] <==> forall k :: 0 <= k < |keys| ==> keys[k].Of?
    ensures forall e :: e in errors <==> e.UnknownKey? && Other(e.name) in keys
  {
    errors := [];
    for i := 0 to |keys|
      invariant errors == [] <==> forall k :: 0 <= k < i ==> keys[k].Of?
      invariant forall e :: e in errors <==> e.UnknownKey? && Other(e.name) in keys[..i]
    {
      if keys[i].Other? { errors := errors + [UnknownKey(keys[i].name)]; }
    }
  }

  method MissingKeyErrors(rubric: map<Key, Entry>) returns (errors: seq<RubricError>)
    ensures errors == [] <==> forall d :: Of(d) in rubric
    ensures forall e :: e in errors <==> e.MissingKey? && Of(e.d) !in rubric
  {
    errors := [];
    for i := 0 to |DIMENSIONS|
      invariant errors == [] <==> forall k :: 0 <= k < i ==> Of(DIMENSIONS[k]) in rubric
      invariant forall e :: e in errors <==> e.MissingKey? && e.d in DIMENSIONS[..i] && Of(e.d) !in rubric
    {
      if Of(DIMENSIONS[i]) !in rubric { errors := errors + [MissingKey(DIMENSIONS[i])]; }
    }
    forall d ensures d in DIMENSIONS[..|DIMENSIONS|] { var k := AllDimensions(d); }
    if errors == [] {
      forall d ensures Of(d) in rubric { var k := AllDimensions(d); }
    }
  }

  /** The errors about one dimension's value. */
  ghost predicate ValueError(rubric: map<Key, Entry>, e: RubricError) {
    match e
    case ValueNotNumeric(d) => Of(d) !in rubric || rubric[Of(d)].NotNumeric?
    case OutOfRange(d) => Of(d) in rubric && rubric[Of(d)].Number? && (rubric[Of(d)].value < 0.0 || rubric[Of(d)].value > 1.0)
    case _ => false
  }

  /** The numbers a rubric has for dimensions, and nothing else. */
  ghost predicate ItsNumbers(rubric: map<Key, Entry>, values: Rubric) {
    forall d :: if Of(d) in rubric && rubric[Of(d)].Number? then d in values && values[d] == rubric[Of(d)].value else d !in values
  }

  method ReadValues(rubric: map<Key, Entry>) returns (values: Rubric, errors: seq<RubricError>)
    ensures errors == [] <==> forall d :: GoodValue(rubric, d)
    ensures forall e :: e in errors <==> ValueError(rubric, e)
    ensures ItsNumbers(rubric, values)
  {
    errors, values := [], map[];
    for i := 0 to |DIMENSIONS|
      invariant errors == [] <==> forall k :: 0 <= k < i ==> GoodValue(rubric, DIMENSIONS[k])
      invariant forall e :: e in errors <==> ValueError(rubric, e) && e.d in DIMENSIONS[..i]
      invariant forall d :: if d in DIMENSIONS[..i] && Of(d) in rubric && rubric[Of(d)].Number?
        then d in values && values[d] == rubric[Of(d)].value else d !in values
    {
      var d := DIMENSIONS[i];
      if Of(d) !in rubric || rubric[Of(d)].NotNumeric? {
        errors := errors + [ValueNotNumeric(d)];
      } else {
        var value := rubric[Of(d)].value;
        if value < 0.0 || value > 1.0 { errors := errors + [OutOfRange(d)]; }
        values := values[d := value];
      }
    }
    forall d ensures d in DIMENSIONS[..|DIMENSIONS|] { var k := AllDimensions(d); }
    if errors == [] {
      forall d ensures GoodValue(rubric, d) { var k := AllDimensions(d); }
    }
  }

  /** A rubric is accepted exactly when it is acceptable; an accepted one has all five
      values, unchanged and in [0, 1]. Each error names what is wrong, all that is wrong is named,
      and the values are withheld only for unknown and missing keys. `keys` lists the object's own keys. */
  method ValidateRubric(rubric: map<Key, Entry>, keys: seq<Key>) returns (values: Option<Rubric>, errors: seq<RubricError>)
    requires forall key :: key in keys <==> key in rubric
    ensures errors == [] <==> Acceptable(rubric)
    ensures errors == [] ==> values.Some? && InUnit(values.value)
    ensures errors == [] ==> forall d :: Of(d) in rubric && rubric[Of(d)] == Number(values.value[d])
    ensures forall name :: UnknownKey(name) in errors <==> Other(name) in rubric
    ensures forall d :: MissingKey(d) in errors <==> Of(d) !in rubric
    ensures forall e: RubricError :: e.ValueNotNumeric? || e.OutOfRange? ==> (e in errors <==> ValueError(rubric, e))
    ensures values.Some? <==> (forall key | key in rubric :: key.Of?) && (forall d :: Of(d) in rubric)
    ensures values.Some? ==> ItsNumbers(rubric, values.value)
  {
    var unknown := UnknownKeyErrors(keys);
    var missing := MissingKeyErrors(rubric);
    var read, bad := ReadValues(rubric);
    errors := unknown + missing + bad;
    values := if |unknown| > 0 || |missing| > 0 then None else Some(read);
    assert Acceptable(rubric) ==> forall d :: Of(d) in rubric by {
      if Acceptable(rubric) {
        forall d ensures Of(d) in rubric { assert GoodValue(rubric, d); }
      }
    }
    if errors == [] {
      assert unknown == [] && missing == [] && bad == [];
      forall d ensures d in read && 0.0 <= read[d] <= 1.0 { assert GoodValue(rubric, d); }
    }
  }

  // ---------- sums ----------

  function Sum(xs: seq<real>): real {
    if xs == [] then 0.0 else Sum(xs[..|xs| - 1]) + xs[|xs| - 1]
  }

  function Mean(xs: seq<real>): real
    requires xs != []
  {
    Sum(xs) / |xs| as real
  }

  lemma MeanTimes(xs: seq<real>)
    requires xs != []
    ensures Mean(xs) * |xs| as real == Sum(xs)
  {
  }

  /** `rubric[dimension] ?? 0`. */
  function At(r: Rubric, d: Dimension): real { if d in r then r[d] else 0.0 }

  /** The five scores summed in the order of the dimensions. */
  function RowSum(r: Rubric): real {
    At(r, AcMet) + At(r, CodeQuality) + At(r, Security) + At(r, RegressionRisk) + At(r, ReleaseReadiness)
  }

  function JudgeMean(r: Rubric): real { RowSum(r) / 5.0 }

  /** A judge's mean, or its score in one dimension. */
  function Score(of: Option<Dimension>, r: Rubric): real {
    match of
    case None => JudgeMean(r)
    case Some(d) => At(r, d)
  }

  function Scores(of: Option<Dimension>, rs: seq<Rubric>): (r: seq<real>)
    ensures |r| == |rs| && forall i :: 0 <= i < |r| ==> r[i] == Score(of, rs[i])
  {
    seq(|rs|, i requires 0 <= i < |rs| => Score(of, rs[i]))
  }

  function JudgeMeans(rs: seq<Rubric>): seq<real> { Scores(None, rs) }

  function Column(rs: seq<Rubric>, d: Dimension): seq<real> { Scores(Some(d), rs) }

  lemma SumScoresSnoc(of: Option<Dimension>, rs: seq<Rubric>)
    requires rs != []
    ensures Sum(Scores(of, rs)) == Sum(Scores(of, rs[..|rs| - 1])) + Score(of, rs[|rs| - 1])
  {
    assert Scores(of, rs)[..|rs| - 1] == Scores(of, rs[..|rs| - 1]);
  }

  // ---------- computeSemanticConfidence ----------

  /** The sum of squared deviations from `m`. */
  function Deviation(xs: seq<real>, m: real): real {
    if xs == [] then 0.0 else Deviation(xs[..|xs| - 1], m) + Square(xs[|xs| - 1] - m)
  }

  function Square(x: real): (r: real)
    ensures r >= 0.0
  {
    x * x
  }

  /** The mean squared deviation from `m`. */
  function Spread(xs: seq<real>, m: real): real
    requires xs != []
  {
    Deviation(xs, m) / |xs| as real
  }

  function Variance(xs: seq<real>): real
    requires xs != []
  {
    Spread(xs, Mean(xs))
  }

  function Clamp(x: real): real { if x < 0.0 then 0.0 else if x > 1.0 then 1.0 else x }

  function SemanticConfidence(rs: seq<Rubric>): real {
    if |rs| < 2 then 0.0 else Clamp(1.0 - Variance(JudgeMeans(rs)))
  }

  function SquareSum(xs: seq<real>): real {
    if xs == [] then 0.0 else SquareSum(xs[..|xs| - 1]) + Square(xs[|xs| - 1])
  }

  /** The squared deviations from `m` of `n` values with sum `s` and sum of squares `q`. */
  function Expanded(q: real, s: real, n: real, m: real): real { q - 2.0 * (m * s) + n * (m * m) }

  lemma ExpandStep(q: real, s: real, n: real, x: real, m: real)
    ensures Expanded(q, s, n, m) + Square(x - m) == Expanded(q + Square(x), s + x, n + 1.0, m)
  {
  }

  /** The squared deviations in terms of the plain sums. */
  lemma {:induction false} DeviationExpands(xs: seq<real>, m: real)
    ensures Deviation(xs, m) == Expanded(SquareSum(xs), Sum(xs), |xs| as real, m)
  {
    if xs == [] {
      assert Expanded(0.0, 0.0, 0.0, m) == 0.0;
    } else {
      var n := |xs| - 1;
      DeviationExpands(xs[..n], m);
      ExpandStep(SquareSum(xs[..n]), Sum(xs[..n]), n as real, xs[n], m);
      assert |xs| as real == n as real + 1.0;
    }
  }

  lemma SquareBelow(x: real)
    requires 0.0 <= x <= 1.0
    ensures Square(x) <= x
  {
    if 0.0 < x < 1.0 { assert (1.0 - x) * x > 0.0; }
  }

  lemma {:induction false} SquareSumBelow(xs: seq<real>)
    requires forall i :: 0 <= i < |xs| ==> 0.0 <= xs[i] <= 1.0
    ensures SquareSum(xs) <= Sum(xs)
  {
    if xs != [] {
      SquareSumBelow(xs[..|xs| - 1]);
      SquareBelow(xs[|xs| - 1]);
    }
  }

  lemma ZeroProduct(x: real, y: real)
    requires x * y == 0.0
    ensures x == 0.0 || y == 0.0
  {
  }

  lemma SquareZero(x: real)
    ensures Square(x) == 0.0 ==> x == 0.0
  {
    if Square(x) == 0.0 { ZeroProduct(x, x); }
  }

  lemma SquareSign(x: real)
    ensures Square(x) >= 0.0 && (Square(x) == 0.0 <==> x == 0.0)
  {
    SquareZero(x);
    if x == 0.0 { assert Square(0.0) == 0.0; }
  }

  lemma {:induction false} DeviationSign(xs: seq<real>, m: real)
    ensures Deviation(xs, m) >= 0.0
    ensures Deviation(xs, m) == 0.0 <==> forall i :: 0 <= i < |xs| ==> xs[i] == m
  {
    if xs != [] {
      var n := |xs| - 1;
      DeviationSign(xs[..n], m);
      SquareSign(xs[n] - m);
      assert forall i :: 0 <= i < n ==> xs[..n][i] == xs[i];
    }
  }

  lemma BoundAlgebra(q: real, s: real, n: real, m: real)
    requires n > 0.0 && m * n == s && q <= s
    ensures Expanded(q, s, n, m) <= n * 0.25
  {
  }

  /** With values in [0, 1], the population variance is at most one quarter, and zero only if they all equal their mean. */
  lemma VarianceBound(xs: seq<real>)
    requires xs != [] && forall i :: 0 <= i < |xs| ==> 0.0 <= xs[i] <= 1.0
    ensures 0.0 <= Variance(xs) <= 0.25
    ensures Variance(xs) == 0.0 <==> forall i :: 0 <= i < |xs| ==> xs[i] == Mean(xs)
  {
    var n, m := |xs| as real, Mean(xs);
    DeviationSign(xs, m);
    DeviationBelow(xs);
  }

  lemma DeviationBelow(xs: seq<real>)
    requires xs != [] && forall i :: 0 <= i < |xs| ==> 0.0 <= xs[i] <= 1.0
    ensures Deviation(xs, Mean(xs)) <= |xs| as real * 0.25
  {
    var n, m := |xs| as real, Mean(xs);
    assert m * n == Sum(xs) by { MeanTimes(xs); }
    assert SquareSum(xs) <= Sum(xs) by { SquareSumBelow(xs); }
    BoundAlgebra(SquareSum(xs), Sum(xs), n, m);
    DeviationExpands(xs, m);
  }

  lemma {:induction false} ConstantSum(xs: seq<real>, x: real)
    requires forall i :: 0 <= i < |xs| ==> xs[i] == x
    ensures Sum(xs) == |xs| as real * x
  {
    if xs != [] {
      ConstantSum(xs[..|xs| - 1], x);
    }
  }

  lemma ConstantMean(xs: seq<real>, x: real)
    requires xs != [] && forall i :: 0 <= i < |xs| ==> xs[i] == x
    ensures Mean(xs) == x
  {
    ConstantSum(xs, x);
    MeanTimes(xs);
  }

  ghost predicate SameMeans(rs: seq<Rubric>) {
    forall i, j :: 0 <= i < j < |rs| ==> JudgeMean(rs[i]) == JudgeMean(rs[j])
  }

  lemma EqualToMean(rs: seq<Rubric>)
    requires rs != []
    ensures SameMeans(rs) <==> forall i :: 0 <= i < |rs| ==> JudgeMeans(rs)[i] == Mean(JudgeMeans(rs))
  {
    var xs := JudgeMeans(rs);
    if SameMeans(rs) {
      forall i | 0 <= i < |xs| ensures xs[i] == xs[0] {
        if i > 0 { assert JudgeMean(rs[0]) == JudgeMean(rs[i]); }
      }
      ConstantMean(xs, xs[0]);
    } else {
      var i, j :| 0 <= i < j < |rs| && JudgeMean(rs[i]) != JudgeMean(rs[j]);
      assert xs[i] != xs[j];
    }
  }

  /** With at least two validated critiques, confidence lies in [0.75, 1], the clamps never
      fire, and it is 1 exactly when all judges have the same mean. */
  lemma ConfidenceBound(rs: seq<Rubric>)
    requires |rs| >= 2 && forall i :: 0 <= i < |rs| ==> InUnit(rs[i])
    ensures 0.75 <= SemanticConfidence(rs) <= 1.0
    ensures SemanticConfidence(rs) == 1.0 - Variance(JudgeMeans(rs))
    ensures SemanticConfidence(rs) == 1.0 <==> SameMeans(rs)
  {
    var xs := JudgeMeans(rs);
    assert forall i :: 0 <= i < |xs| ==> 0.0 <= xs[i] <= 1.0;
    VarianceBound(xs);
    EqualToMean(rs);
  }

  function Or0(r: Rubric, d: Dimension): real { if d in r then r[d] else 0.0 }

  /** Each judge's mean, an absent score taken as nothing. */
  ghost predicate MeansOr0(rs: seq<Rubric>, means: seq<real>) {
    && |means| == |rs|
    && forall i :: 0 <= i < |rs| ==>
      5.0 * means[i] == Or0(rs[i], AcMet) + Or0(rs[i], CodeQuality) + Or0(rs[i], Security)
                        + Or0(rs[i], RegressionRisk) + Or0(rs[i], ReleaseReadiness)
  }

  /** Confidence in full, for any critiques: nothing below two; otherwise one less the variance `v` of
      the judges' means, the mean of their squared deviations from their mean `m`, but not below nothing. */
  lemma ConfidenceMeaning(rs: seq<Rubric>) returns (means: seq<real>, m: real, v: real)
    ensures MeansOr0(rs, means)
    ensures m * |rs| as real == Sum(means) && v * |rs| as real == Deviation(means, m) && v >= 0.0
    ensures SemanticConfidence(rs) == if |rs| < 2 || v > 1.0 then 0.0 else 1.0 - v
  {
    means, m, v := JudgeMeans(rs), 0.0, 0.0;
    if rs != [] {
      m, v := Mean(means), Variance(means);
      MeanTimes(means);
      SpreadTimes(means, m);
    }
  }

  lemma SpreadTimes(xs: seq<real>, m: real)
    requires xs != []
    ensures Spread(xs, m) * |xs| as real == Deviation(xs, m) && Spread(xs, m) >= 0.0
  {
    DeviationSign(xs, m);
  }

  // ---------- evaluateConsensus ----------

  datatype Thresholds = Thresholds(meanJudges: real, minJudges: real, meanDims: real, minDims: real)

  const DEFAULT_THRESHOLDS := Thresholds(0.85, 0.85, 0.85, 0.85)

  datatype Hit = MeanJudges | MinJudges | MeanDims | MinDims

  datatype Consensus =
    | NoCritiques
    | MissingDimension(judge: nat, d: Dimension)
    | Consensus(pass: bool, score: real, judgeMeans: seq<real>, dimMeans: seq<real>, hits: seq<Hit>)

  function Min(xs: seq<real>): (m: real)
    requires xs != []
    ensures m in xs && forall i :: 0 <= i < |xs| ==> m <= xs[i]
  {
    if |xs| == 1 then xs[0]
    else
      var m := Min(xs[..|xs| - 1]);
      assert forall i :: 0 <= i < |xs| - 1 ==> xs[i] == xs[..|xs| - 1][i];
      if xs[|xs| - 1] < m then xs[|xs| - 1] else m
  }

  function DimMeans(rs: seq<Rubric>): (r: seq<real>)
    requires rs != []
    ensures |r| == 5
  {
    [Mean(Column(rs, AcMet)), Mean(Column(rs, CodeQuality)), Mean(Column(rs, Security)),
     Mean(Column(rs, RegressionRisk)), Mean(Column(rs, ReleaseReadiness))]
  }

  ghost predicate CompleteRubric(r: Rubric) { forall d :: d in r }

  function Hits(judgeMeans: seq<real>, dimMeans: seq<real>, t: Thresholds): seq<Hit>
    requires judgeMeans != [] && dimMeans != []
  {
    (if Mean(judgeMeans) < t.meanJudges then [MeanJudges] else []) +
    (if Min(judgeMeans) < t.minJudges then [MinJudges] else []) +
    (if Mean(dimMeans) < t.meanDims then [MeanDims] else []) +
    (if Min(dimMeans) < t.minDims then [MinDims] else [])
  }

  /** The consensus of complete critiques. */
  function ConsensusOf(rs: seq<Rubric>, t: Thresholds): Consensus
    requires rs != []
  {
    var hits := Hits(JudgeMeans(rs), DimMeans(rs), t);
    Consensus(hits == [], Mean(JudgeMeans(rs)), JudgeMeans(rs), DimMeans(rs), hits)
  }

  /** `d` is the first dimension a rubric lacks. */
  ghost predicate FirstLacking(r: Rubric, d: Dimension) {
    && d !in r
    && (d != AcMet ==> AcMet in r)
    && (d !in {AcMet, CodeQuality} ==> CodeQuality in r)
    && (d in {RegressionRisk, ReleaseReadiness} ==> Security in r)
    && (d == ReleaseReadiness ==> RegressionRisk in r)
  }

  /** The first dimension a rubric lacks. */
  method FirstMissing(r: Rubric) returns (d: Option<Dimension>)
    ensures d == None <==> CompleteRubric(r)
    ensures d.Some? ==> FirstLacking(r, d.value)
  {
    for k := 0 to |DIMENSIONS|
      invariant forall m :: 0 <= m < k ==> DIMENSIONS[m] in r
    {
      if DIMENSIONS[k] !in r {
        assert (k > 0 ==> DIMENSIONS[0] in r) && (k > 1 ==> DIMENSIONS[1] in r);
        assert (k > 2 ==> DIMENSIONS[2] in r) && (k > 3 ==> DIMENSIONS[3] in r);
        return Some(DIMENSIONS[k]);
      }
    }
    forall d ensures d in r { var k := AllDimensions(d); }
    return None;
  }

  method ThresholdsHit(judgeMeans: seq<real>, dimMeans: seq<real>, t: Thresholds) returns (hits: seq<Hit>)
    requires judgeMeans != [] && dimMeans != []
    ensures hits == Hits(judgeMeans, dimMeans, t)
  {
    hits := [];
    if Mean(judgeMeans) < t.meanJudges { hits := hits + [MeanJudges]; }
    if Min(judgeMeans) < t.minJudges { hits := hits + [MinJudges]; }
    if Mean(dimMeans) < t.meanDims { hits := hits + [MeanDims]; }
    if Min(dimMeans) < t.minDims { hits := hits + [MinDims]; }
  }

  method EvaluateConsensus(rs: seq<Rubric>, t: Thresholds) returns (c: Consensus)
    ensures rs == [] ==> c == NoCritiques
    ensures c.MissingDimension? ==> c.judge < |rs| && FirstLacking(rs[c.judge], c.d)
    ensures c.MissingDimension? ==> forall i :: 0 <= i < c.judge ==> CompleteRubric(rs[i])
    ensures rs != [] ==> (c.MissingDimension? <==> exists i :: 0 <= i < |rs| && !CompleteRubric(rs[i]))
    ensures rs != [] && !c.MissingDimension? ==> c == ConsensusOf(rs, t)
  {
    if rs == [] { return NoCritiques; }
    for i := 0 to |rs|
      invariant forall k :: 0 <= k < i ==> CompleteRubric(rs[k])
    {
      var missing := FirstMissing(rs[i]);
      if missing.Some? { return MissingDimension(i, missing.value); }
    }
    var judgeMeans, dimMeans := JudgeMeans(rs), DimMeans(rs);
    var hits := ThresholdsHit(judgeMeans, dimMeans, t);
    c := Consensus(|hits| == 0, Mean(judgeMeans), judgeMeans, dimMeans, hits);
  }

  /** The scores of all judges in one dimension, in order. */
  ghost predicate ScoresIn(rs: seq<Rubric>, d: Dimension, scores: seq<real>) {
    |scores| == |rs| && forall i :: 0 <= i < |rs| ==> d in rs[i] && scores[i] == rs[i][d]
  }

  ghost predicate IsMean(mean: real, xs: seq<real>) { mean * |xs| as real == Sum(xs) }

  /** `mean` is the mean of the judges' scores in `d`. */
  ghost predicate DimensionMean(rs: seq<Rubric>, d: Dimension, mean: real) {
    exists scores :: ScoresIn(rs, d, scores) && IsMean(mean, scores)
  }

  /** `mean` is the mean of the five scores of `r`. */
  ghost predicate JudgesMean(r: Rubric, mean: real) {
    CompleteRubric(r) && 5.0 * mean == r[AcMet] + r[CodeQuality] + r[Security] + r[RegressionRisk] + r[ReleaseReadiness]
  }

  ghost predicate JudgesMeans(rs: seq<Rubric>, means: seq<real>) {
    |means| == |rs| && forall i :: 0 <= i < |rs| ==> JudgesMean(rs[i], means[i])
  }

  ghost predicate DimensionMeans(rs: seq<Rubric>, means: seq<real>) {
    && |means| == 5 && DimensionMean(rs, AcMet, means[0]) && DimensionMean(rs, CodeQuality, means[1])
    && DimensionMean(rs, Security, means[2]) && DimensionMean(rs, RegressionRisk, means[3])
    && DimensionMean(rs, ReleaseReadiness, means[4])
  }

  /** The means of a consensus: one a judge, one a dimension, and their own mean as the score. */
  lemma ConsensusMeaning(rs: seq<Rubric>, t: Thresholds)
    requires rs != [] && forall i :: 0 <= i < |rs| ==> CompleteRubric(rs[i])
    ensures var c := ConsensusOf(rs, t);
      && JudgesMeans(rs, c.judgeMeans) && DimensionMeans(rs, c.dimMeans) && IsMean(c.score, c.judgeMeans)
  {
    JudgesMeansAre(rs);
    DimensionMeansAre(rs);
    MeanIs(JudgeMeans(rs));
  }

  lemma MeanIs(xs: seq<real>)
    requires xs != []
    ensures IsMean(Mean(xs), xs)
  {
    MeanTimes(xs);
  }

  lemma JudgesMeansAre(rs: seq<Rubric>)
    requires forall i :: 0 <= i < |rs| ==> CompleteRubric(rs[i])
    ensures JudgesMeans(rs, JudgeMeans(rs))
  {
    forall i | 0 <= i < |rs| ensures JudgesMean(rs[i], JudgeMeans(rs)[i]) { JudgesMeanIs(rs[i]); }
  }

  lemma DimensionMeansAre(rs: seq<Rubric>)
    requires rs != [] && forall i :: 0 <= i < |rs| ==> CompleteRubric(rs[i])
    ensures DimensionMeans(rs, DimMeans(rs))
  {
    forall d ensures DimensionMean(rs, d, Mean(Column(rs, d))) { DimensionMeanIs(rs, d); }
  }

  lemma JudgesMeanIs(r: Rubric)
    requires CompleteRubric(r)
    ensures JudgesMean(r, JudgeMean(r))
  {
  }

  lemma DimensionMeanIs(rs: seq<Rubric>, d: Dimension)
    requires rs != [] && forall i :: 0 <= i < |rs| ==> CompleteRubric(rs[i])
    ensures DimensionMean(rs, d, Mean(Column(rs, d)))
  {
    MeanTimes(Column(rs, d));
    assert ScoresIn(rs, d, Column(rs, d));
  }

  /** Under any thresholds, each is listed exactly when its own statistic is below it, in a fixed
      order, and the verdict is pass exactly when none is listed. */
  lemma ThresholdsMeaning(rs: seq<Rubric>, t: Thresholds)
    requires rs != []
    ensures var c := ConsensusOf(rs, t);
      && (MeanJudges in c.hits <==> c.score < t.meanJudges)
      && (MinJudges in c.hits <==> exists i :: 0 <= i < |c.judgeMeans| && c.judgeMeans[i] < t.minJudges)
      && (MeanDims in c.hits <==>
            c.dimMeans[0] + c.dimMeans[1] + c.dimMeans[2] + c.dimMeans[3] + c.dimMeans[4] < 5.0 * t.meanDims)
      && (MinDims in c.hits <==> exists k :: 0 <= k < 5 && c.dimMeans[k] < t.minDims)
      && InOrder(c.hits) && (c.pass <==> c.hits == [])
  {
    var jm, dm := JudgeMeans(rs), DimMeans(rs);
    BelowMin(jm, t.minJudges);
    BelowMin(dm, t.minDims);
    FiveMean(dm[0], dm[1], dm[2], dm[3], dm[4]);
    assert dm == [dm[0], dm[1], dm[2], dm[3], dm[4]];
    HitsAre(jm, dm, t);
    HitsInOrder(jm, dm, t);
  }

  function Position(hit: Hit): nat {
    match hit
    case MeanJudges => 0
    case MinJudges => 1
    case MeanDims => 2
    case MinDims => 3
  }

  ghost predicate InOrder(hits: seq<Hit>) { forall p, q :: 0 <= p < q < |hits| ==> Position(hits[p]) < Position(hits[q]) }

  lemma HitsInOrder(jm: seq<real>, dm: seq<real>, t: Thresholds)
    requires jm != [] && dm != []
    ensures InOrder(Hits(jm, dm, t))
  {
  }

  lemma BelowMin(xs: seq<real>, t: real)
    requires xs != []
    ensures Min(xs) < t <==> exists i :: 0 <= i < |xs| && xs[i] < t
  {
    var k :| 0 <= k < |xs| && xs[k] == Min(xs);
  }

  lemma HitsAre(jm: seq<real>, dm: seq<real>, t: Thresholds)
    requires jm != [] && dm != []
    ensures MeanJudges in Hits(jm, dm, t) <==> Mean(jm) < t.meanJudges
    ensures MinJudges in Hits(jm, dm, t) <==> Min(jm) < t.minJudges
    ensures MeanDims in Hits(jm, dm, t) <==> Mean(dm) < t.meanDims
    ensures MinDims in Hits(jm, dm, t) <==> Min(dm) < t.minDims
  {
  }

  /** Summing by judge and by dimension gives the same total. */
  lemma {:induction false} SumExchange(rs: seq<Rubric>)
    ensures 5.0 * Sum(JudgeMeans(rs)) ==
      Sum(Column(rs, AcMet)) + Sum(Column(rs, CodeQuality)) + Sum(Column(rs, Security))
      + Sum(Column(rs, RegressionRisk)) + Sum(Column(rs, ReleaseReadiness))
  {
    if rs != [] {
      SumExchange(rs[..|rs| - 1]);
      SumScoresSnoc(None, rs);
      SumScoresSnoc(Some(AcMet), rs);
      SumScoresSnoc(Some(CodeQuality), rs);
      SumScoresSnoc(Some(Security), rs);
      SumScoresSnoc(Some(RegressionRisk), rs);
      SumScoresSnoc(Some(ReleaseReadiness), rs);
    }
  }

  lemma FiveSum(a: real, b: real, c: real, d: real, e: real)
    ensures Sum([a, b, c, d, e]) == a + b + c + d + e
  {
    SumSnoc([], a);
    SumSnoc([a], b);
    SumSnoc([a, b], c);
    SumSnoc([a, b, c], d);
    SumSnoc([a, b, c, d], e);
    assert [] + [a] == [a] && [a] + [b] == [a, b] && [a, b] + [c] == [a, b, c];
    assert [a, b, c] + [d] == [a, b, c, d] && [a, b, c, d] + [e] == [a, b, c, d, e];
  }

  lemma SumSnoc(xs: seq<real>, x: real)
    ensures Sum(xs + [x]) == Sum(xs) + x
  {
    assert (xs + [x])[..|xs|] == xs;
  }

  lemma FiveQuotients(a: real, b: real, c: real, d: real, e: real, t: real, n: real)
    requires n > 0.0 && 5.0 * t == a + b + c + d + e
    ensures (a / n + b / n + c / n + d / n + e / n) / 5.0 == t / n
  {
  }

  lemma FiveMean(a: real, b: real, c: real, d: real, e: real)
    ensures Mean([a, b, c, d, e]) == (a + b + c + d + e) / 5.0
  {
    FiveSum(a, b, c, d, e);
  }

  lemma MeanOf(of: Option<Dimension>, rs: seq<Rubric>, n: real, s: real)
    requires rs != [] && n == |rs| as real && s == Sum(Scores(of, rs))
    ensures Mean(Scores(of, rs)) == s / n
  {
  }

  /** The mean of the judges' means is the mean of the dimensions' means. */
  lemma MeansAgree(rs: seq<Rubric>)
    requires rs != []
    ensures Mean(JudgeMeans(rs)) == Mean(DimMeans(rs))
  {
    var n := |rs| as real;
    var a, b, c := Sum(Column(rs, AcMet)), Sum(Column(rs, CodeQuality)), Sum(Column(rs, Security));
    var d, e, t := Sum(Column(rs, RegressionRisk)), Sum(Column(rs, ReleaseReadiness)), Sum(JudgeMeans(rs));
    SumExchange(rs);
    FiveQuotients(a, b, c, d, e, t, n);
    FiveMean(a / n, b / n, c / n, d / n, e / n);
    MeanOf(None, rs, n, t);
    assert DimMeans(rs) == [a / n, b / n, c / n, d / n, e / n] by {
      MeanOf(Some(AcMet), rs, n, a);
      MeanOf(Some(CodeQuality), rs, n, b);
      MeanOf(Some(Security), rs, n, c);
      MeanOf(Some(RegressionRisk), rs, n, d);
      MeanOf(Some(ReleaseReadiness), rs, n, e);
    }
  }

  lemma {:induction false} SumAtLeast(xs: seq<real>, low: real)
    requires forall i :: 0 <= i < |xs| ==> low <= xs[i]
    ensures |xs| as real * low <= Sum(xs)
  {
    if xs != [] {
      SumAtLeast(xs[..|xs| - 1], low);
    }
  }

  /** The smallest value is at most the mean. */
  lemma MinBelowMean(xs: seq<real>)
    requires xs != []
    ensures Min(xs) <= Mean(xs)
  {
    SumAtLeast(xs, Min(xs));
    MeanTimes(xs);
  }

  ghost predicate AllAtLeast(xs: seq<real>, t: real) { forall i :: 0 <= i < |xs| ==> xs[i] >= t }

  /** No threshold is hit exactly when no minimum is: a mean is never below its minimum. */
  lemma HitsByMinima(jm: seq<real>, dm: seq<real>)
    requires jm != [] && dm != []
    ensures Hits(jm, dm, DEFAULT_THRESHOLDS) == [] <==> AllAtLeast(jm, 0.85) && AllAtLeast(dm, 0.85)
  {
    MinBelowMean(jm);
    MinBelowMean(dm);
  }

  /** Under the default thresholds the two means decide nothing: the verdict is pass exactly
      when every judge's mean and every dimension's mean reaches 0.85. */
  lemma ConsensusPassIff(rs: seq<Rubric>)
    requires rs != []
    ensures ConsensusOf(rs, DEFAULT_THRESHOLDS).pass <==>
      && (forall i :: 0 <= i < |rs| ==> JudgeMean(rs[i]) >= 0.85)
      && (forall d :: Mean(Column(rs, d)) >= 0.85)
  {
    HitsByMinima(JudgeMeans(rs), DimMeans(rs));
    assert AllAtLeast(JudgeMeans(rs), 0.85) <==> forall i :: 0 <= i < |rs| ==> JudgeMean(rs[i]) >= 0.85 by {
      assert forall i :: 0 <= i < |rs| ==> JudgeMeans(rs)[i] == JudgeMean(rs[i]);
    }
    DimMeansAtLeast(rs, 0.85);
  }

  lemma DimMeansAtLeast(rs: seq<Rubric>, t: real)
    requires rs != []
    ensures AllAtLeast(DimMeans(rs), t) <==> forall d :: Mean(Column(rs, d)) >= t
  {
    var dm := DimMeans(rs);
    forall d ensures Mean(Column(rs, d)) in dm {
      var k := AllDimensions(d);
      assert dm[k] == Mean(Column(rs, d));
    }
    if AllAtLeast(dm, t) {
      forall d ensures Mean(Column(rs, d)) >= t { assert Mean(Column(rs, d)) in dm; }
    }
    if forall d :: Mean(Column(rs, d)) >= t {
      forall i | 0 <= i < |dm| ensures dm[i] >= t { assert dm[i] == Mean(Column(rs, DIMENSIONS[i])); }
    }
  }

  // ---------- reordering judges ----------

  lemma {:induction false} SumConcat(a: seq<real>, b: seq<real>)
    ensures Sum(a + b) == Sum(a) + Sum(b)
  {
    if b == [] {
      assert a + b == a;
    } else {
      SumConcat(a, b[..|b| - 1]);
      assert (a + b)[..|a + b| - 1] == a + b[..|b| - 1];
    }
  }

  /** Taking one critique out takes its score out of the sum. */
  lemma SumWithout(of: Option<Dimension>, ss: seq<Rubric>, k: nat)
    requires k < |ss|
    ensures Sum(Scores(of, ss)) == Sum(Scores(of, ss[..k] + ss[k + 1..])) + Score(of, ss[k])
  {
    var a, x, b := Scores(of, ss[..k]), [Score(of, ss[k])], Scores(of, ss[k + 1..]);
    assert Scores(of, ss) == a + x + b;
    assert Scores(of, ss[..k] + ss[k + 1..]) == a + b;
    SumConcat(a + x, b);
    SumConcat(a, x);
    SumConcat(a, b);
    assert x[..0] == [] && Sum(x) == Score(of, ss[k]);
  }

  lemma MultisetWithout(ss: seq<Rubric>, k: nat)
    requires k < |ss|
    ensures multiset(ss[..k] + ss[k + 1..]) == multiset(ss) - multiset{ss[k]}
  {
    assert ss == ss[..k] + [ss[k]] + ss[k + 1..];
  }

  /** A sum over the critiques does not depend on their order. */
  lemma {:induction false} SumReordered(of: Option<Dimension>, rs: seq<Rubric>, ss: seq<Rubric>)
    requires multiset(rs) == multiset(ss)
    ensures |rs| == |ss| && Sum(Scores(of, rs)) == Sum(Scores(of, ss))
    decreases rs
  {
    assert |multiset(rs)| == |multiset(ss)|;
    if rs != [] {
      var n := |rs| - 1;
      assert rs[n] in multiset(ss);
      var k :| 0 <= k < |ss| && ss[k] == rs[n];
      MultisetWithout(rs, n);
      MultisetWithout(ss, k);
      assert rs[..n] + rs[n + 1..] == rs[..n];
      SumReordered(of, rs[..n], ss[..k] + ss[k + 1..]);
      SumWithout(of, ss, k);
      SumScoresSnoc(of, rs);
    }
  }

  lemma MeanReordered(of: Option<Dimension>, rs: seq<Rubric>, ss: seq<Rubric>)
    requires rs != [] && ss != [] && multiset(rs) == multiset(ss)
    ensures Mean(Scores(of, rs)) == Mean(Scores(of, ss))
  {
    SumReordered(of, rs, ss);
  }

  lemma MinReordered(a: seq<real>, b: seq<real>)
    requires a != [] && b != [] && forall x :: x in a <==> x in b
    ensures Min(a) == Min(b)
  {
    assert Min(a) in b && Min(b) in a;
    var i :| 0 <= i < |b| && b[i] == Min(a);
    var k :| 0 <= k < |a| && a[k] == Min(b);
  }

  lemma JudgeMeansReordered(rs: seq<Rubric>, ss: seq<Rubric>)
    requires multiset(rs) == multiset(ss)
    ensures forall x :: x in JudgeMeans(rs) ==> x in JudgeMeans(ss)
  {
    forall x | x in JudgeMeans(rs) ensures x in JudgeMeans(ss) {
      var i :| 0 <= i < |rs| && JudgeMeans(rs)[i] == x;
      assert rs[i] in multiset(ss);
      var k :| 0 <= k < |ss| && ss[k] == rs[i];
      assert JudgeMeans(ss)[k] == x;
    }
  }

  /** Under any thresholds, verdict, score, dimension means and thresholds hit do not depend
      on the order of the judges. */
  lemma ConsensusOrderFree(rs: seq<Rubric>, ss: seq<Rubric>, t: Thresholds)
    requires rs != [] && ss != [] && multiset(rs) == multiset(ss)
    ensures ConsensusOf(rs, t).pass == ConsensusOf(ss, t).pass && ConsensusOf(rs, t).score == ConsensusOf(ss, t).score
    ensures ConsensusOf(rs, t).dimMeans == ConsensusOf(ss, t).dimMeans && ConsensusOf(rs, t).hits == ConsensusOf(ss, t).hits
  {
    MeanReordered(None, rs, ss);
    DimMeansReordered(rs, ss);
    assert Min(JudgeMeans(rs)) == Min(JudgeMeans(ss)) by {
      JudgeMeansReordered(rs, ss);
      JudgeMeansReordered(ss, rs);
      MinReordered(JudgeMeans(rs), JudgeMeans(ss));
    }
  }

  lemma DimMeansReordered(rs: seq<Rubric>, ss: seq<Rubric>)
    requires rs != [] && ss != [] && multiset(rs) == multiset(ss)
    ensures DimMeans(rs) == DimMeans(ss)
  {
    forall d ensures Mean(Column(rs, d)) == Mean(Column(ss, d)) { MeanReordered(Some(d), rs, ss); }
  }

}
