/**
 * The deterministic parts of models/train_model.py: reconstruction error per sequence,
 * flagging by threshold, the confusion counts and derived metrics of evaluate_model, and
 * the method dispatch of determine_threshold.
 *
 * The autoencoder is the function-typed parameter reconstruct; numpy's mean, std and
 * percentile over the training errors are supplied as an ErrorStats value.
 */
module TrainModel {
  import opened Common

  type Row = seq<real>
  type Matrix = seq<Row>

  // ---------------------------------------------------------------------------
  // Reconstruction error
  // ---------------------------------------------------------------------------

  /** Two matrices of the same shape, so that their element-wise difference exists. */
  predicate SameShape(x: Matrix, y: Matrix)
  {
    |x| == |y| && forall i :: 0 <= i < |x| ==> |x[i]| == |y[i]|
  }

  /** The number of cells of a (timestep x feature) matrix. */
  function CellCount(x: Matrix): nat
  {
    if x == [] then 0 else |x[0]| + CellCount(x[1..])
  }

  /** A square is never negative. */
  lemma SquareNonNegative(d: real)
    ensures d * d >= 0.0
  {
    if d < 0.0 {
      assert d * d > 0.0 * d;
    }
  }

  /** Sum over one row of the squared differences: never negative, and zero when the rows agree. */
  function RowSquaredError(u: Row, v: Row): (s: real)
    requires |u| == |v|
    ensures s >= 0.0
    ensures u == v ==> s == 0.0
  {
    if u == [] then 0.0
    else
      var d := u[0] - v[0];
      SquareNonNegative(d);
      d * d + RowSquaredError(u[1..], v[1..])
  }

  /** Sum over all cells of the squared differences: never negative, and zero when the matrices agree. */
  function SquaredError(x: Matrix, y: Matrix): (s: real)
    requires SameShape(x, y)
    ensures s >= 0.0
    ensures x == y ==> s == 0.0
  {
    if x == [] then 0.0
    else RowSquaredError(x[0], y[0]) + SquaredError(x[1..], y[1..])
  }

  /**
   * np.mean(np.square(x - y)) over all timestep x feature cells: never negative, and zero
   * when the reconstruction equals the input.
   */
  function MeanSquaredError(x: Matrix, y: Matrix): (e: real)
    requires SameShape(x, y) && CellCount(x) > 0
    ensures e >= 0.0
    ensures x == y ==> e == 0.0
  {
    SquaredError(x, y) / CellCount(x) as real
  }

  /** Every sequence can be scored: the model returns its shape, and it has at least one cell. */
  predicate Scorable(xs: seq<Matrix>, reconstruct: Matrix -> Matrix)
  {
    forall i :: 0 <= i < |xs| ==> SameShape(xs[i], reconstruct(xs[i])) && CellCount(xs[i]) > 0
  }

  /**
   * calculate_reconstruction_errors: one error per sequence, the mean squared difference
   * between the sequence and the model's reconstruction of it; never negative, and zero
   * for every sequence the model reproduces.
   */
  function ReconstructionErrors(xs: seq<Matrix>, reconstruct: Matrix -> Matrix): (errors: seq<real>)
    requires Scorable(xs, reconstruct)
    ensures |errors| == |xs|
    ensures forall i :: 0 <= i < |xs| ==> errors[i] == MeanSquaredError(xs[i], reconstruct(xs[i]))
    ensures forall i :: 0 <= i < |xs| ==> errors[i] >= 0.0 && (reconstruct(xs[i]) == xs[i] ==> errors[i] == 0.0)
  {
    if xs == [] then []
    else [MeanSquaredError(xs[0], reconstruct(xs[0]))] + ReconstructionErrors(xs[1..], reconstruct)
  }

  // ---------------------------------------------------------------------------
  // Flagging
  // ---------------------------------------------------------------------------

  /** (errors > threshold).astype(int): one prediction per error, 1 exactly when the error is strictly above the threshold. */
  function Predictions(errors: seq<real>, threshold: real): (p: seq<Bit>)
    ensures |p| == |errors|
    ensures forall i :: 0 <= i < |errors| ==> (p[i] == 1 <==> errors[i] > threshold)
  {
    if errors == [] then []
    else [if errors[0] > threshold then 1 else 0] + Predictions(errors[1..], threshold)
  }

  /** detect_anomalies (models/train_model.py:104-120): predictions and the errors they come from. */
  function DetectAnomalies(xs: seq<Matrix>, reconstruct: Matrix -> Matrix, threshold: real): (r: (seq<Bit>, seq<real>))
    requires Scorable(xs, reconstruct)
    ensures |r.0| == |r.1| == |xs|
    ensures forall i :: 0 <= i < |xs| ==>
      r.1[i] == MeanSquaredError(xs[i], reconstruct(xs[i])) && (r.0[i] == 1 <==> r.1[i] > threshold)
  {
    var errors := ReconstructionErrors(xs, reconstruct);
    (Predictions(errors, threshold), errors)
  }

  /** A sequence the model reproduces exactly is never flagged at a non-negative threshold. */
  lemma ExactReconstructionNotFlagged(xs: seq<Matrix>, reconstruct: Matrix -> Matrix, threshold: real, i: nat)
    requires Scorable(xs, reconstruct) && threshold >= 0.0
    requires i < |xs| && reconstruct(xs[i]) == xs[i]
    ensures DetectAnomalies(xs, reconstruct, threshold).0[i] == 0
  {
  }

  // ---------------------------------------------------------------------------
  // Evaluation
  // ---------------------------------------------------------------------------

  /** How many entries of s equal b. */
  function CountOf(s: seq<Bit>, b: Bit): (n: nat)
    ensures n <= |s|
  {
    if s == [] then 0 else (if s[0] == b then 1 else 0) + CountOf(s[1..], b)
  }

  /** How many positions hold the same bit in both sequences. */
  function Agreements(s: seq<Bit>, t: seq<Bit>): (n: nat)
    requires |s| == |t|
    ensures n <= |s|
  {
    if s == [] then 0 else (if s[0] == t[0] then 1 else 0) + Agreements(s[1..], t[1..])
  }

  lemma {:induction false} CountsPartition(s: seq<Bit>)
    ensures CountOf(s, 0) + CountOf(s, 1) == |s|
  {
    if s != [] {
      CountsPartition(s[1..]);
    }
  }

  datatype Confusion = Confusion(tn: nat, fp: nat, fn: nat, tp: nat)

  /**
   * The confusion counts of binary labels against binary predictions. The four equations
   * below determine the counts uniquely: they partition the samples, tp + fn are the actual
   * positives, tp + fp the predicted positives, and tp + tn the correct predictions.
   */
  function ConfusionCounts(yTrue: seq<Bit>, yPred: seq<Bit>): (c: Confusion)
    requires |yTrue| == |yPred|
    ensures c.tn + c.fp + c.fn + c.tp == |yTrue|
    ensures c.tp + c.fn == CountOf(yTrue, 1)
    ensures c.tp + c.fp == CountOf(yPred, 1)
    ensures c.tp + c.tn == Agreements(yTrue, yPred)
  {
    if yTrue == [] then Confusion(0, 0, 0, 0)
    else
      var c := ConfusionCounts(yTrue[1..], yPred[1..]);
      if yTrue[0] == 0 && yPred[0] == 0 then c.(tn := c.tn + 1)
      else if yTrue[0] == 0 then c.(fp := c.fp + 1)
      else if yPred[0] == 0 then c.(fn := c.fn + 1)
      else c.(tp := c.tp + 1)
  }

  /** For 0 <= a <= b and b > 0, the quotient a / b is a fraction in [0, 1], zero only for a = 0. */
  lemma QuotientFacts(a: real, b: real)
    requires 0.0 <= a <= b && b > 0.0
    ensures 0.0 <= a / b <= 1.0
    ensures (a / b) * b == a
    ensures a / b == 0.0 <==> a == 0.0
    ensures a == b ==> a / b == 1.0
  {
  }

  /** num / den, or 0 when den is 0 (the zero-denominator guard of evaluate_model). */
  function Ratio(num: nat, den: nat): (r: real)
    ensures den == 0 ==> r == 0.0
    ensures num <= den ==> 0.0 <= r <= 1.0
    ensures den > 0 ==> r * den as real == num as real
    ensures num == 0 ==> r == 0.0
    ensures 0 < num == den ==> r == 1.0
  {
    if den > 0 then
      if num <= den then QuotientFacts(num as real, den as real); num as real / den as real
      else num as real / den as real
    else 0.0
  }

  /** pr = p * r for a fraction p in [0, 1] and a non-negative r lies between 0 and r. */
  lemma ScaledByFraction(p: real, r: real, pr: real)
    requires 0.0 <= p <= 1.0 && 0.0 <= r && pr == p * r
    ensures 0.0 <= pr <= r
  {
    assert p * r <= 1.0 * r;
    assert p * r >= 0.0 * r;
  }

  /** A product of non-negative factors is zero exactly when one of them is. */
  lemma ProductZero(p: real, r: real, pr: real)
    requires 0.0 <= p && 0.0 <= r && pr == p * r
    ensures pr == 0.0 <==> p == 0.0 || r == 0.0
  {
    if p > 0.0 && r > 0.0 {
      assert p * r > 0.0 * r;
    }
  }

  /** For p and r in [0, 1] with p + r > 0, the harmonic mean 2pr / (p + r) lies in [0, 1] and is zero only when p or r is. */
  lemma HarmonicMeanFacts(p: real, r: real)
    requires 0.0 <= p <= 1.0 && 0.0 <= r <= 1.0 && p + r > 0.0
    ensures 0.0 <= 2.0 * (p * r) / (p + r) <= 1.0
    ensures 2.0 * (p * r) / (p + r) == 0.0 <==> p == 0.0 || r == 0.0
  {
    var pr := p * r;
    ScaledByFraction(p, r, pr);
    ScaledByFraction(r, p, pr);
    ProductZero(p, r, pr);
    ScaledProductQuotient(p, r, pr);
  }

  /** The quotient step of HarmonicMeanFacts, with the product p * r as a value pr. */
  lemma ScaledProductQuotient(p: real, r: real, pr: real)
    requires 0.0 <= pr <= p && pr <= r && p + r > 0.0
    requires pr == 0.0 <==> p == 0.0 || r == 0.0
    ensures 0.0 <= 2.0 * pr / (p + r) <= 1.0
    ensures 2.0 * pr / (p + r) == 0.0 <==> p == 0.0 || r == 0.0
  {
    QuotientFacts(2.0 * pr, p + r);
  }

  /** 2pr / (p + r), or 0 when p + r is 0. For p and r in [0, 1] it lies in [0, 1]. */
  function F1(p: real, r: real): (f: real)
    requires 0.0 <= p <= 1.0 && 0.0 <= r <= 1.0
    ensures 0.0 <= f <= 1.0
    ensures f == 0.0 <==> p == 0.0 || r == 0.0
  {
    if p + r > 0.0 then
      HarmonicMeanFacts(p, r);
      2.0 * (p * r) / (p + r)
    else 0.0
  }

  datatype Metrics = Metrics(
    accuracy: real, precision: real, recall: real, f1Score: real,
    detectionRate: real, falsePositiveRate: real,
    truePositives: nat, falsePositives: nat, trueNegatives: nat, falseNegatives: nat,
    threshold: real)

  /**
   * evaluate_model (models/train_model.py:123-160). Accuracy is the share of correct
   * predictions; recall (= detection rate) the share of actual positives predicted
   * positive; precision the share of predicted positives that are actual positives; the
   * false-positive rate the share of actual negatives predicted positive. Each guarded
   * ratio is 0 when its denominator is 0, every rate lies in [0, 1], and the threshold is
   * echoed unchanged.
   */
  function Evaluate(yTrue: seq<Bit>, yPred: seq<Bit>, threshold: real): (m: Metrics)
    requires |yTrue| == |yPred| > 0
    ensures m.trueNegatives + m.falsePositives + m.falseNegatives + m.truePositives == |yTrue|
    ensures m.truePositives + m.falseNegatives == CountOf(yTrue, 1)
    ensures m.truePositives + m.falsePositives == CountOf(yPred, 1)
    ensures m.truePositives + m.trueNegatives == Agreements(yTrue, yPred)
    ensures m.accuracy == Ratio(m.truePositives + m.trueNegatives, |yTrue|)
    ensures m.recall == Ratio(m.truePositives, CountOf(yTrue, 1))
    ensures m.precision == Ratio(m.truePositives, CountOf(yPred, 1))
    ensures m.falsePositiveRate == Ratio(m.falsePositives, CountOf(yTrue, 0))
    ensures m.f1Score == F1(m.precision, m.recall)
    ensures m.detectionRate == m.recall && m.threshold == threshold
  {
    var c := ConfusionCounts(yTrue, yPred);
    CountsPartition(yTrue);
    var precision := Ratio(c.tp, c.tp + c.fp);
    var recall := Ratio(c.tp, c.tp + c.fn);
    Metrics(
      Ratio(c.tp + c.tn, c.tp + c.tn + c.fp + c.fn), precision, recall, F1(precision, recall),
      recall, Ratio(c.fp, c.fp + c.tn), c.tp, c.fp, c.tn, c.fn, threshold)
  }

  /** Every rate evaluate_model reports is a fraction in [0, 1]. */
  lemma MetricsBounds(yTrue: seq<Bit>, yPred: seq<Bit>, threshold: real)
    requires |yTrue| == |yPred| > 0
    ensures var m := Evaluate(yTrue, yPred, threshold);
            0.0 <= m.accuracy <= 1.0 && 0.0 <= m.precision <= 1.0 && 0.0 <= m.recall <= 1.0 &&
            0.0 <= m.f1Score <= 1.0 && 0.0 <= m.falsePositiveRate <= 1.0 && 0.0 <= m.detectionRate <= 1.0
  {
    var m := Evaluate(yTrue, yPred, threshold);
    CountsPartition(yTrue);
    assert m.falsePositives <= CountOf(yTrue, 0);
  }

  /** Perfect predictions give accuracy 1, no false positives, no misses, and recall and precision 1 when there are positives. */
  lemma PerfectPredictions(y: seq<Bit>, threshold: real)
    requires |y| > 0
    ensures var m := Evaluate(y, y, threshold);
            m.accuracy == 1.0 && m.falsePositiveRate == 0.0 && m.falsePositives == 0 && m.falseNegatives == 0 &&
            (CountOf(y, 1) > 0 ==> m.recall == 1.0 && m.precision == 1.0)
  {
    var m := Evaluate(y, y, threshold);
    AgreementsSelf(y);
    assert m.falsePositives == 0 && m.falseNegatives == 0;
    assert m.truePositives == CountOf(y, 1);
  }

  lemma {:induction false} AgreementsSelf(y: seq<Bit>)
    ensures Agreements(y, y) == |y|
  {
    if y != [] {
      AgreementsSelf(y[1..]);
    }
  }

  // ---------------------------------------------------------------------------
  // Threshold determination
  // ---------------------------------------------------------------------------

  /**
   * Statistics of the training errors as numpy computes them: their mean, their standard
   * deviation, and pct[p] = np.percentile(train_errors, p) for p in 0..99.
   */
  datatype ErrorStats = ErrorStats(mean: real, std: real, pct: seq<real>)

  predicate ValidStats(s: ErrorStats)
  {
    |s.pct| == 100 && s.std >= 0.0 && forall p, q :: 0 <= p <= q < 100 ==> s.pct[p] <= s.pct[q]
  }

  /**
   * determine_threshold (models/train_model.py:78-101): 'percentile' is the 95th percentile,
   * 'iqr' is q75 + 1.5 * (q75 - q25), and 'mean_std' as well as every unrecognised method
   * name is mean + stdMultiplier * std.
   */
  function DetermineThreshold(s: ErrorStats, rule: string, stdMultiplier: real): (t: real)
    requires |s.pct| == 100
    ensures rule == "percentile" ==> t == s.pct[95]
    ensures rule == "iqr" ==> t == s.pct[75] + 1.5 * (s.pct[75] - s.pct[25])
    ensures rule != "percentile" && rule != "iqr" ==> t == s.mean + stdMultiplier * s.std
  {
    if rule == "mean_std" then s.mean + stdMultiplier * s.std
    else if rule == "percentile" then s.pct[95]
    else if rule == "iqr" then
      var q75, q25 := s.pct[75], s.pct[25];
      q75 + 1.5 * (q75 - q25)
    else s.mean + stdMultiplier * s.std
  }

  /** An unrecognised method name behaves exactly like 'mean_std'. */
  lemma UnknownMethodIsMeanStd(s: ErrorStats, rule: string, stdMultiplier: real)
    requires |s.pct| == 100
    requires rule != "mean_std" && rule != "percentile" && rule != "iqr"
    ensures DetermineThreshold(s, rule, stdMultiplier) == DetermineThreshold(s, "mean_std", stdMultiplier)
  {
  }

  /** With ordered percentiles the IQR rule never falls below q75, and mean + k*std never below the mean for k >= 0. */
  lemma ThresholdLowerBounds(s: ErrorStats, stdMultiplier: real)
    requires ValidStats(s)
    ensures DetermineThreshold(s, "iqr", stdMultiplier) >= s.pct[75]
    ensures stdMultiplier >= 0.0 ==> DetermineThreshold(s, "mean_std", stdMultiplier) >= s.mean
  {
  }
}
