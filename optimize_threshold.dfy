/**
 * The threshold-selection rule of models/optimize_threshold.py (find_optimal_threshold):
 * nine candidate thresholds derived from the training errors are evaluated on the test
 * set in a fixed order, the passing candidate with the strictly greatest detection rate
 * is kept, and when none passes a penalised score picks a percentile of the training
 * errors instead.
 *
 * The training-error statistics are an ErrorStats value and the test-set reconstruction
 * errors are an input sequence; the autoencoder itself does not appear.
 */
module OptimizeThreshold {
  import opened Common
  import opened TrainModel

  /** A candidate must detect at least this share of the attacks. */
  const MinDetectionRate: real := 0.85

  /** A named candidate threshold. */
  datatype Candidate = Candidate(name: string, threshold: real)

  /** The returned dictionary: the chosen threshold, the name of its strategy and its test metrics. */
  datatype Selection = Selection(threshold: real, strategy: string, testMetrics: Metrics)

  /**
   * The strategies dictionary, in insertion order: mean + 3, 2 and 1 standard deviations,
   * the mean, then the 95th, 90th, 85th, 80th and 75th percentiles. With a non-negative
   * deviation and ordered percentiles each family is listed from strictest to most lenient.
   */
  function Strategies(s: ErrorStats): (c: seq<Candidate>)
    requires |s.pct| == 100
    ensures |c| == 9
    ensures forall i :: 0 <= i < 4 ==> c[i].threshold == s.mean + (3 - i) as real * s.std
    ensures forall i :: 4 <= i < 9 ==> c[i].threshold == s.pct[95 - 5 * (i - 4)]
    ensures ValidStats(s) ==> forall i, j :: 0 <= i <= j < 4 ==> c[j].threshold <= c[i].threshold
    ensures ValidStats(s) ==> forall i, j :: 4 <= i <= j < 9 ==> c[j].threshold <= c[i].threshold
  {
    [ Candidate("mean + 3*std", s.mean + 3.0 * s.std),
      Candidate("mean + 2*std", s.mean + 2.0 * s.std),
      Candidate("mean + 1*std", s.mean + 1.0 * s.std),
      Candidate("mean", s.mean),
      Candidate("95th percentile", s.pct[95]),
      Candidate("90th percentile", s.pct[90]),
      Candidate("85th percentile", s.pct[85]),
      Candidate("80th percentile", s.pct[80]),
      Candidate("75th percentile", s.pct[75]) ]
  }

  /** The test metrics of a threshold: predict 1 exactly when the test error is above it, then evaluate. */
  function MetricsAt(testErrors: seq<real>, yTest: seq<Bit>, threshold: real): Metrics
    requires |testErrors| == |yTest| > 0
  {
    Evaluate(yTest, Predictions(testErrors, threshold), threshold)
  }

  /** The evaluation of a candidate threshold on the test set, as the selection rule sees it. */
  type Evaluator = real -> Metrics

  function TestEvaluator(testErrors: seq<real>, yTest: seq<Bit>): Evaluator
    requires |testErrors| == |yTest| > 0
  {
    threshold => MetricsAt(testErrors, yTest, threshold)
  }

  /** The pass rule: detection rate at least 0.85 and false-positive rate at most the target. */
  predicate Passes(m: Metrics, targetFpr: real)
  {
    m.detectionRate >= MinDetectionRate && m.falsePositiveRate <= targetFpr
  }

  datatype Status = Pass | HighFpr | LowDet | Fail

  /**
   * The status printed for a candidate. The four statuses partition the candidates by the
   * two requirements: Pass meets both, HighFpr only the detection rate, LowDet only the
   * false-positive rate, and Fail neither.
   */
  function StatusOf(m: Metrics, targetFpr: real): (st: Status)
    ensures st == Pass <==> Passes(m, targetFpr)
    ensures st == HighFpr <==> m.detectionRate >= MinDetectionRate && m.falsePositiveRate > targetFpr
    ensures st == LowDet <==> m.detectionRate < MinDetectionRate && m.falsePositiveRate <= targetFpr
    ensures st == Fail <==> m.detectionRate < MinDetectionRate && m.falsePositiveRate > targetFpr
  {
    if m.detectionRate >= MinDetectionRate && m.falsePositiveRate <= targetFpr then Pass
    else if m.detectionRate >= MinDetectionRate then HighFpr
    else if m.falsePositiveRate <= targetFpr then LowDet
    else Fail
  }

  function CandidateSelection(c: Candidate, eval: Evaluator): Selection
  {
    Selection(c.threshold, c.name, eval(c.threshold))
  }

  predicate CandidatePasses(cands: seq<Candidate>, eval: Evaluator, targetFpr: real, i: nat)
    requires i < |cands|
  {
    Passes(eval(cands[i].threshold), targetFpr)
  }

  function DetectionAt(cands: seq<Candidate>, eval: Evaluator, i: nat): real
    requires i < |cands|
  {
    eval(cands[i].threshold).detectionRate
  }

  /**
   * Candidate i is the one the strict comparison keeps: it passes, no passing candidate
   * has a greater detection rate, and every earlier passing candidate has a smaller one.
   */
  predicate IsBestPassing(cands: seq<Candidate>, eval: Evaluator, targetFpr: real, i: nat)
  {
    i < |cands| && CandidatePasses(cands, eval, targetFpr, i) &&
    (forall j :: 0 <= j < |cands| && CandidatePasses(cands, eval, targetFpr, j) ==>
      DetectionAt(cands, eval, j) <= DetectionAt(cands, eval, i)) &&
    (forall j :: 0 <= j < i && CandidatePasses(cands, eval, targetFpr, j) ==>
      DetectionAt(cands, eval, j) < DetectionAt(cands, eval, i))
  }

  /** At most one candidate is the best passing one: ties go to the earliest. */
  lemma BestPassingIsUnique(cands: seq<Candidate>, eval: Evaluator, targetFpr: real, i: nat, j: nat)
    requires IsBestPassing(cands, eval, targetFpr, i)
    requires IsBestPassing(cands, eval, targetFpr, j)
    ensures i == j
  {
  }

  /**
   * The strategy loop (models/optimize_threshold.py:59-84): nothing is kept exactly when no
   * candidate passes; otherwise the kept threshold, name and metrics are those of the best
   * passing candidate.
   */
  method SelectStrategy(cands: seq<Candidate>, eval: Evaluator, targetFpr: real)
    returns (best: Option<Selection>)
    ensures best.None? <==> forall i :: 0 <= i < |cands| ==> !CandidatePasses(cands, eval, targetFpr, i)
    ensures best.Some? ==> exists i: nat :: IsBestPassing(cands, eval, targetFpr, i) &&
                                      best.value == CandidateSelection(cands[i], eval)
  {
    best := None;
    ghost var at: nat := 0;
    for i := 0 to |cands|
      invariant best.None? <==> forall j :: 0 <= j < i ==> !CandidatePasses(cands, eval, targetFpr, j)
      invariant best.Some? ==> at < i && CandidatePasses(cands, eval, targetFpr, at) &&
                               best.value == CandidateSelection(cands[at], eval)
      invariant best.Some? ==> forall j :: 0 <= j < i && CandidatePasses(cands, eval, targetFpr, j) ==>
                                 DetectionAt(cands, eval, j) <= DetectionAt(cands, eval, at)
      invariant best.Some? ==> forall j :: 0 <= j < at && CandidatePasses(cands, eval, targetFpr, j) ==>
                                 DetectionAt(cands, eval, j) < DetectionAt(cands, eval, at)
    {
      var metrics := eval(cands[i].threshold);
      assert CandidatePasses(cands, eval, targetFpr, i) <==>
             metrics.detectionRate >= MinDetectionRate && metrics.falsePositiveRate <= targetFpr;
      if metrics.detectionRate >= MinDetectionRate && metrics.falsePositiveRate <= targetFpr {
        if best.None? || metrics.detectionRate > best.value.testMetrics.detectionRate {
          best := Some(Selection(cands[i].threshold, cands[i].name, metrics));
          at := i;
        }
      }
    }
    if best.Some? {
      assert IsBestPassing(cands, eval, targetFpr, at);
    }
  }

  // ---------------------------------------------------------------------------
  // The percentile fallback
  // ---------------------------------------------------------------------------

  /** The score of the fallback: detection rate minus the false-positive rate, doubled when it exceeds the target. */
  function FallbackScore(m: Metrics, targetFpr: real): real
  {
    m.detectionRate - m.falsePositiveRate * (if m.falsePositiveRate > targetFpr then 2.0 else 1.0)
  }

  /** For rates in [0, 1] the score lies in [-2, 1], and it is at least -targetFpr while the target is met. */
  lemma FallbackScoreRange(m: Metrics, targetFpr: real)
    requires 0.0 <= m.detectionRate <= 1.0 && 0.0 <= m.falsePositiveRate <= 1.0
    ensures -2.0 <= FallbackScore(m, targetFpr) <= 1.0
    ensures m.falsePositiveRate <= targetFpr ==> FallbackScore(m, targetFpr) >= -targetFpr
  {
  }

  function ScoreAt(pct: seq<real>, eval: Evaluator, targetFpr: real, p: nat): real
    requires p < |pct|
  {
    FallbackScore(eval(pct[p]), targetFpr)
  }

  /** Every fallback score on the test set is at least -2, whatever the test data. */
  lemma ScoreAtLeastMinusTwo(pct: seq<real>, testErrors: seq<real>, yTest: seq<Bit>, targetFpr: real, p: nat)
    requires |testErrors| == |yTest| > 0 && p < |pct|
    ensures ScoreAt(pct, TestEvaluator(testErrors, yTest), targetFpr, p) >= -2.0
  {
    MetricsBounds(yTest, Predictions(testErrors, pct[p]), pct[p]);
    FallbackScoreRange(MetricsAt(testErrors, yTest, pct[p]), targetFpr);
  }

  function Digit(d: nat): (c: char)
    requires d < 10
    ensures c as int - '0' as int == d
  {
    "0123456789"[d]
  }

  /** f"{percentile}th percentile" for a two-digit percentile. */
  function PercentileName(p: nat): (name: string)
    requires 10 <= p < 100
    ensures |name| == 15 && name[2..] == "th percentile"
    ensures (name[0] as int - '0' as int) * 10 + (name[1] as int - '0' as int) == p
  {
    [Digit(p / 10), Digit(p % 10)] + "th percentile"
  }

  lemma DigitsDiffer(d: nat, e: nat)
    requires d < 10 && e < 10 && d != e
    ensures Digit(d) != Digit(e)
  {
  }

  /** Distinct percentiles get distinct strategy names. */
  lemma PercentileNamesDiffer(p: nat, q: nat)
    requires 10 <= p < 100 && 10 <= q < 100 && p != q
    ensures PercentileName(p) != PercentileName(q)
  {
    if p / 10 != q / 10 {
      DigitsDiffer(p / 10, q / 10);
      assert PercentileName(p)[0] != PercentileName(q)[0];
    } else {
      DigitsDiffer(p % 10, q % 10);
      assert PercentileName(p)[1] != PercentileName(q)[1];
    }
  }

  function PercentileSelection(pct: seq<real>, eval: Evaluator, p: nat): Selection
    requires 10 <= p < 100 && p < |pct|
  {
    Selection(pct[p], PercentileName(p), eval(pct[p]))
  }

  /** A score beats the best so far when there is none yet (an initial best of minus infinity) or it is strictly greater. */
  predicate Beats(score: real, bestScore: Option<real>)
  {
    bestScore.None? || score > bestScore.value
  }

  /**
   * Percentile p is the one the fallback keeps: its score beats the initial best score,
   * no percentile in 50..99 scores higher, and every earlier one scores lower.
   */
  predicate IsBestFallback(pct: seq<real>, eval: Evaluator, targetFpr: real,
                           initialScore: Option<real>, p: nat)
    requires |pct| == 100
  {
    50 <= p < 100 && Beats(ScoreAt(pct, eval, targetFpr, p), initialScore) &&
    (forall q :: 50 <= q < 100 ==> ScoreAt(pct, eval, targetFpr, q) <= ScoreAt(pct, eval, targetFpr, p)) &&
    (forall q :: 50 <= q < p ==> ScoreAt(pct, eval, targetFpr, q) < ScoreAt(pct, eval, targetFpr, p))
  }

  /**
   * The fallback loop (models/optimize_threshold.py:95-110) over the percentiles 50..99,
   * starting from initialScore: nothing is kept exactly when no score beats the initial
   * one; otherwise the kept threshold, name and metrics are those of the best percentile.
   */
  method PercentileFallback(pct: seq<real>, eval: Evaluator, targetFpr: real,
                            initialScore: Option<real>)
    returns (best: Option<Selection>)
    requires |pct| == 100
    ensures best.None? <==> forall p :: 50 <= p < 100 ==> !Beats(ScoreAt(pct, eval, targetFpr, p), initialScore)
    ensures best.Some? ==> exists p: nat :: IsBestFallback(pct, eval, targetFpr, initialScore, p) &&
                                      best.value == PercentileSelection(pct, eval, p)
  {
    best := None;
    var bestScore := initialScore;
    ghost var at: nat := 50;
    for p := 50 to 100
      invariant best.None? <==> forall q :: 50 <= q < p ==> !Beats(ScoreAt(pct, eval, targetFpr, q), initialScore)
      invariant best.None? ==> bestScore == initialScore
      invariant best.Some? ==> 50 <= at < p && bestScore == Some(ScoreAt(pct, eval, targetFpr, at)) &&
                               Beats(ScoreAt(pct, eval, targetFpr, at), initialScore) &&
                               best.value == PercentileSelection(pct, eval, at)
      invariant best.Some? ==> forall q :: 50 <= q < p ==>
                                 ScoreAt(pct, eval, targetFpr, q) <= ScoreAt(pct, eval, targetFpr, at)
      invariant best.Some? ==> forall q :: 50 <= q < at ==>
                                 ScoreAt(pct, eval, targetFpr, q) < ScoreAt(pct, eval, targetFpr, at)
    {
      var threshold := pct[p];
      var metrics := eval(threshold);
      var score := FallbackScore(metrics, targetFpr);
      assert score == ScoreAt(pct, eval, targetFpr, p);
      if Beats(score, bestScore) {
        bestScore := Some(score);
        best := Some(Selection(threshold, PercentileName(p), metrics));
        at := p;
      }
    }
    if best.Some? {
      assert IsBestFallback(pct, eval, targetFpr, initialScore, at);
    }
  }

  // ---------------------------------------------------------------------------
  // find_optimal_threshold
  // ---------------------------------------------------------------------------

  predicate NoCandidatePasses(s: ErrorStats, eval: Evaluator, targetFpr: real)
    requires |s.pct| == 100
  {
    forall i :: 0 <= i < 9 ==> !CandidatePasses(Strategies(s), eval, targetFpr, i)
  }

  /**
   * find_optimal_threshold as written (models/optimize_threshold.py:19-126): the fallback
   * starts from a best score of -1, so when no candidate passes and no percentile scores
   * above -1 nothing is selected (None), and formatting the missing threshold at line 113
   * raises.
   */
  method FindOptimalThresholdAsWritten(s: ErrorStats, testErrors: seq<real>, yTest: seq<Bit>, targetFpr: real)
    returns (r: Option<Selection>)
    requires |s.pct| == 100 && |testErrors| == |yTest| > 0
    ensures var eval := TestEvaluator(testErrors, yTest);
            r.None? <==> NoCandidatePasses(s, eval, targetFpr) &&
                         forall p :: 50 <= p < 100 ==> ScoreAt(s.pct, eval, targetFpr, p) <= -1.0
    ensures var eval := TestEvaluator(testErrors, yTest);
            !NoCandidatePasses(s, eval, targetFpr) ==>
              exists i: nat :: IsBestPassing(Strategies(s), eval, targetFpr, i) && r == Some(CandidateSelection(Strategies(s)[i], eval))
    ensures var eval := TestEvaluator(testErrors, yTest);
            NoCandidatePasses(s, eval, targetFpr) && r.Some? ==>
              exists p: nat :: IsBestFallback(s.pct, eval, targetFpr, Some(-1.0), p) && r.value == PercentileSelection(s.pct, eval, p)
  {
    var eval := TestEvaluator(testErrors, yTest);
    r := SelectStrategy(Strategies(s), eval, targetFpr);
    if r.None? {
      r := PercentileFallback(s.pct, eval, targetFpr, Some(-1.0));
    }
  }

  /** Training errors that are all 1.0, and a test set of one missed attack and one flagged benign flow. */
  const ExampleStats: ErrorStats := ErrorStats(1.0, 0.0, seq(100, _ => 1.0))
  const ExampleTestErrors: seq<real> := [0.0, 10.0]
  const ExampleLabels: seq<Bit> := [1, 0]

  /** Every threshold in [0, 10) misses the attack and flags the benign flow: detection rate 0, false-positive rate 1. */
  lemma ExampleMetrics(threshold: real)
    requires 0.0 <= threshold < 10.0
    ensures TestEvaluator(ExampleTestErrors, ExampleLabels)(threshold).detectionRate == 0.0
    ensures TestEvaluator(ExampleTestErrors, ExampleLabels)(threshold).falsePositiveRate == 1.0
  {
    var yPred := Predictions(ExampleTestErrors, threshold);
    assert yPred == [0, 1];
    assert CountOf(ExampleLabels, 1) == 1 && CountOf(ExampleLabels, 0) == 1;
    var c := ConfusionCounts(ExampleLabels, yPred);
    assert c == Confusion(0, 1, 1, 0);
  }

  /**
   * On the example no candidate passes and every fallback percentile scores -2, below the
   * initial best score of -1, so the as-written rule selects nothing.
   */
  lemma AsWrittenSelectsNothing()
    ensures NoCandidatePasses(ExampleStats, TestEvaluator(ExampleTestErrors, ExampleLabels), 0.10)
    ensures forall p :: 50 <= p < 100 ==>
              ScoreAt(ExampleStats.pct, TestEvaluator(ExampleTestErrors, ExampleLabels), 0.10, p) == -2.0
  {
    var cands := Strategies(ExampleStats);
    forall i | 0 <= i < 9
      ensures !CandidatePasses(cands, TestEvaluator(ExampleTestErrors, ExampleLabels), 0.10, i)
    {
      ExampleMetrics(cands[i].threshold);
    }
    forall p | 50 <= p < 100
      ensures ScoreAt(ExampleStats.pct, TestEvaluator(ExampleTestErrors, ExampleLabels), 0.10, p) == -2.0
    {
      ExampleMetrics(ExampleStats.pct[p]);
    }
  }

  /**
   * find_optimal_threshold with the fallback starting from minus infinity: a selection is
   * always made. It is the best passing candidate when one passes; otherwise it is the
   * best-scoring percentile in 50..99. Threshold, strategy name and metrics always belong
   * to the same candidate.
   */
  method FindOptimalThreshold(s: ErrorStats, testErrors: seq<real>, yTest: seq<Bit>, targetFpr: real)
    returns (r: Selection)
    requires |s.pct| == 100 && |testErrors| == |yTest| > 0
    ensures var eval := TestEvaluator(testErrors, yTest);
            !NoCandidatePasses(s, eval, targetFpr) ==>
              exists i: nat :: IsBestPassing(Strategies(s), eval, targetFpr, i) && r == CandidateSelection(Strategies(s)[i], eval)
    ensures var eval := TestEvaluator(testErrors, yTest);
            NoCandidatePasses(s, eval, targetFpr) ==>
              exists p: nat :: IsBestFallback(s.pct, eval, targetFpr, None, p) && r == PercentileSelection(s.pct, eval, p)
  {
    var eval := TestEvaluator(testErrors, yTest);
    var best := SelectStrategy(Strategies(s), eval, targetFpr);
    if best.Some? {
      return best.value;
    }
    var fallback := PercentileFallback(s.pct, eval, targetFpr, None);
    assert Beats(ScoreAt(s.pct, eval, targetFpr, 50), None);
    return fallback.value;
  }
}
