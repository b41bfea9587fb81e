/**
 * The detection service of app.py: preprocess_for_detection (feature validation, feature
 * selection, the length check and the sliding window) and detect_anomalies (reconstruction
 * error per sequence, flagging, severity, the capped detail list, the summary and the
 * failure report), plus the status code the upload route derives from a report.
 *
 * The uploaded CSV arrives as a Table; the StandardScaler is the function-typed parameter
 * normalize and the loaded autoencoder the optional function-typed parameter model.
 */
module App {
  import opened Common
  import opened Preprocess
  import opened TrainModel

  // ---------------------------------------------------------------------------
  // The uploaded table
  // ---------------------------------------------------------------------------

  /** One CSV cell as pandas parses it: a number, or text. */
  datatype Cell = Num(x: real) | Text(s: string)

  /** A parsed CSV file: column names and one row of cells per data line. */
  datatype Table = Table(header: seq<string>, rows: seq<seq<Cell>>)

  /** What pd.read_csv guarantees: distinct column names and one cell per column in every row. */
  predicate WellFormed(t: Table)
  {
    (forall i, j :: 0 <= i < j < |t.header| ==> t.header[i] != t.header[j]) &&
    forall r :: r in t.rows ==> |r| == |t.header|
  }

  /** The four features the detector was trained on, in the order the model expects them. */
  const ExpectedFeatures: seq<string> := ["orig_pkts", "resp_pkts", "orig_bytes", "resp_bytes"]

  /** The columns dropped before validation when present: the timestamp and the label. */
  const DroppedColumns: set<string> := {"ts", "label"}

  /** At most this many flagged sequences are described in a report. */
  const MaxDetails: nat := 100

  /** Why a scan produced no result, one constructor per exception the source can raise or report. */
  datatype ScanError =
    | ModelNotLoaded
    | MissingFeatures(names: seq<string>)
    | NonNumericFeature
    | TooFewRows
    | ShapeMismatch

  /** The columns left after dropping the timestamp and the label. */
  function WorkingColumns(header: seq<string>): (cols: seq<string>)
    ensures forall c :: c in cols <==> c in header && c !in DroppedColumns
  {
    Drop(header, DroppedColumns)
  }

  /** The expected features absent from the working columns, in the fixed feature order. */
  function MissingFrom(header: seq<string>): (missing: seq<string>)
    ensures forall f :: f in missing <==> f in ExpectedFeatures && f !in header
    ensures IsSubsequence(missing, ExpectedFeatures)
    ensures missing == [] <==> forall f :: f in ExpectedFeatures ==> f in header
  {
    var cols := WorkingColumns(header);
    var missing := Drop(ExpectedFeatures, Elements(cols));
    assert forall f :: f in missing <==> f in ExpectedFeatures && f !in header by {
      forall f | f in ExpectedFeatures
        ensures f !in DroppedColumns
      {
      }
    }
    assert missing != [] ==> missing[0] in missing;
    missing
  }

  /** The position of column name in header. */
  function ColumnIndex(header: seq<string>, name: string): (i: nat)
    requires name in header
    ensures i < |header| && header[i] == name
  {
    if header[0] == name then 0 else 1 + ColumnIndex(header[1..], name)
  }

  /**
   * The numeric values of the given features in one row, in the order of features;
   * None when one of them holds text, which the scaler cannot convert.
   */
  function SelectRow(header: seq<string>, row: seq<Cell>, features: seq<string>): (r: Option<Row>)
    requires |row| == |header|
    requires forall f :: f in features ==> f in header
    ensures r.Some? <==> forall j :: 0 <= j < |features| ==> row[ColumnIndex(header, features[j])].Num?
    ensures r.Some? ==> (|r.value| == |features| &&
      forall j :: 0 <= j < |features| ==> r.value[j] == row[ColumnIndex(header, features[j])].x)
  {
    if features == [] then Some([])
    else
      var cell := row[ColumnIndex(header, features[0])];
      var rest := SelectRow(header, row, features[1..]);
      if cell.Text? then None
      else if rest.None? then None
      else Some([cell.x] + rest.value)
  }

  /** df[expected_features] converted to numbers, row by row; None when a selected cell holds text. */
  function SelectFeatures(t: Table): (m: Option<Matrix>)
    requires WellFormed(t)
    requires forall f :: f in ExpectedFeatures ==> f in t.header
    ensures m.Some? <==> forall i :: 0 <= i < |t.rows| ==> SelectRow(t.header, t.rows[i], ExpectedFeatures).Some?
    ensures m.Some? ==> (|m.value| == |t.rows| &&
      forall i :: 0 <= i < |t.rows| ==> m.value[i] == SelectRow(t.header, t.rows[i], ExpectedFeatures).value)
  {
    SelectRows(t.header, t.rows)
  }

  /** The feature selection of SelectFeatures over the rows of a table with the given header. */
  function SelectRows(header: seq<string>, rows: seq<seq<Cell>>): (m: Option<Matrix>)
    requires forall i :: 0 <= i < |rows| ==> |rows[i]| == |header|
    requires forall f :: f in ExpectedFeatures ==> f in header
    ensures m.Some? <==> forall i :: 0 <= i < |rows| ==> SelectRow(header, rows[i], ExpectedFeatures).Some?
    ensures m.Some? ==> (|m.value| == |rows| &&
      forall i :: 0 <= i < |rows| ==> m.value[i] == SelectRow(header, rows[i], ExpectedFeatures).value)
  {
    if rows == [] then Some([])
    else
      var first := SelectRow(header, rows[0], ExpectedFeatures);
      var rest := SelectRows(header, rows[1..]);
      assert forall i :: 1 <= i < |rows| ==> rows[1..][i - 1] == rows[i];
      if first.None? || rest.None? then None
      else Some([first.value] + rest.value)
  }

  /** A normalisation that keeps the number of rows and the width of every row, as the scaler does. */
  ghost predicate PreservesShape(normalize: Matrix -> Matrix)
  {
    forall m :: |normalize(m)| == |m| && forall i :: 0 <= i < |m| ==> |normalize(m)[i]| == |m[i]|
  }

  /**
   * What preprocess_for_detection produces: the error it raises, or the windows of ten
   * consecutive normalised feature rows.
   */
  function Preprocessed(t: Table, normalize: Matrix -> Matrix): Result<seq<Matrix>, ScanError>
    requires WellFormed(t)
  {
    var missing := MissingFrom(t.header);
    if missing != [] then Failure(MissingFeatures(missing))
    else
      var selected := SelectFeatures(t);
      if selected.None? then Failure(NonNumericFeature)
      else
        var normalized := normalize(selected.value);
        if |normalized| <= SeqLength then Failure(TooFewRows)
        else Success(Windows(normalized, SeqLength))
  }

  /**
   * preprocess_for_detection (app.py:89-148). Its inline window loop (app.py:141-144) is the
   * loop of create_sequences, reached only once the length check has passed.
   */
  method PreprocessForDetection(t: Table, normalize: Matrix -> Matrix) returns (r: Result<seq<Matrix>, ScanError>)
    requires WellFormed(t)
    ensures r == Preprocessed(t, normalize)
  {
    var missing := MissingFrom(t.header);
    if missing != [] {
      return Failure(MissingFeatures(missing));
    }
    var selected := SelectFeatures(t);
    if selected.None? {
      return Failure(NonNumericFeature);
    }
    var normalized := normalize(selected.value);
    if |normalized| <= SeqLength {
      return Failure(TooFewRows);
    }
    var sequences := CreateSequences(normalized, SeqLength);
    return Success(sequences);
  }

  /**
   * A table lacking some expected feature is rejected with exactly the missing features,
   * in the fixed feature order; a table with all four is never rejected for missing features.
   */
  lemma MissingFeaturesReported(t: Table, normalize: Matrix -> Matrix)
    requires WellFormed(t)
    ensures (exists f :: f in ExpectedFeatures && f !in t.header) <==>
            Preprocessed(t, normalize).Failure? && Preprocessed(t, normalize).error.MissingFeatures?
    ensures Preprocessed(t, normalize).Failure? && Preprocessed(t, normalize).error.MissingFeatures? ==>
            var names := Preprocessed(t, normalize).error.names;
            IsSubsequence(names, ExpectedFeatures) &&
            forall f :: f in names <==> f in ExpectedFeatures && f !in t.header
  {
  }

  /** A table whose features are all present and numeric but which has at most ten rows is rejected. */
  lemma ShortTableRejected(t: Table, normalize: Matrix -> Matrix)
    requires WellFormed(t) && PreservesShape(normalize)
    requires forall f :: f in ExpectedFeatures ==> f in t.header
    requires SelectFeatures(t).Some?
    requires |t.rows| <= SeqLength
    ensures Preprocessed(t, normalize) == Failure(TooFewRows)
  {
    assert |normalize(SelectFeatures(t).value)| == |t.rows|;
  }

  /**
   * A valid table of N > 10 rows yields N - 10 windows; window i is normalised rows
   * i .. i + 9 in their original order, each holding the four features in the fixed order.
   */
  lemma LongTableWindows(t: Table, normalize: Matrix -> Matrix)
    requires WellFormed(t) && PreservesShape(normalize)
    requires forall f :: f in ExpectedFeatures ==> f in t.header
    requires SelectFeatures(t).Some?
    requires |t.rows| > SeqLength
    ensures Preprocessed(t, normalize).Success?
    ensures var w := Preprocessed(t, normalize).value;
            var normalized := normalize(SelectFeatures(t).value);
            |w| == |t.rows| - SeqLength &&
            forall i :: 0 <= i < |w| ==> (|w[i]| == SeqLength && w[i] == normalized[i..i + SeqLength] &&
              forall k :: 0 <= k < SeqLength ==> |w[i][k]| == |ExpectedFeatures|)
  {
    var normalized := normalize(SelectFeatures(t).value);
    NormalizedShape(t, normalize);
    LongTableAccepted(t, normalize);
    WindowRowWidths(normalized, |ExpectedFeatures|);
  }

  /** A table whose features are all present and numeric and which has more than ten rows is windowed. */
  lemma LongTableAccepted(t: Table, normalize: Matrix -> Matrix)
    requires WellFormed(t) && PreservesShape(normalize)
    requires forall f :: f in ExpectedFeatures ==> f in t.header
    requires SelectFeatures(t).Some?
    requires |t.rows| > SeqLength
    ensures Preprocessed(t, normalize) == Success(Windows(normalize(SelectFeatures(t).value), SeqLength))
  {
    NormalizedShape(t, normalize);
  }

  /** Every window of a matrix whose rows all have the same width consists of SeqLength rows of that width. */
  lemma WindowRowWidths(m: Matrix, width: nat)
    requires forall i :: 0 <= i < |m| ==> |m[i]| == width
    ensures var w := Windows(m, SeqLength);
            forall i :: 0 <= i < |w| ==> (|w[i]| == SeqLength && forall k :: 0 <= k < SeqLength ==> |w[i][k]| == width)
  {
    var w := Windows(m, SeqLength);
    forall i | 0 <= i < |w|
      ensures forall k :: 0 <= k < SeqLength ==> |w[i][k]| == width
    {
      assert w[i] == m[i..i + SeqLength];
      forall k | 0 <= k < SeqLength
        ensures |w[i][k]| == width
      {
        assert w[i][k] == m[i + k];
      }
    }
  }

  /** The normalised feature matrix of a table whose features are all present and numeric has one row of four values per table row. */
  lemma NormalizedShape(t: Table, normalize: Matrix -> Matrix)
    requires WellFormed(t) && PreservesShape(normalize)
    requires forall f :: f in ExpectedFeatures ==> f in t.header
    requires SelectFeatures(t).Some?
    ensures var normalized := normalize(SelectFeatures(t).value);
            |normalized| == |t.rows| &&
            forall i :: 0 <= i < |normalized| ==> |normalized[i]| == |ExpectedFeatures|
  {
    var selected := SelectFeatures(t).value;
    forall i | 0 <= i < |selected|
      ensures |normalize(selected)[i]| == |ExpectedFeatures|
    {
      assert |normalize(selected)[i]| == |selected[i]|;
    }
  }

  // ---------------------------------------------------------------------------
  // Classification
  // ---------------------------------------------------------------------------

  datatype Severity = Medium | High

  /** The severity of a flagged sequence: High strictly above 1.5 times the threshold, Medium otherwise. */
  function SeverityOf(error: real, threshold: real): Severity
  {
    if error > threshold * 1.5 then High else Medium
  }

  /**
   * The two tiers split at 1.5 times the threshold: an error of exactly 1.5 times the
   * threshold is Medium, severity never decreases as the error grows, and for a
   * non-negative threshold a High error is always above the threshold itself.
   */
  lemma SeverityTiers(e1: real, e2: real, threshold: real)
    ensures SeverityOf(threshold * 1.5, threshold) == Medium
    ensures e1 <= e2 && SeverityOf(e1, threshold) == High ==> SeverityOf(e2, threshold) == High
    ensures threshold >= 0.0 && SeverityOf(e1, threshold) == High ==> e1 > threshold
    ensures SeverityOf(e1, threshold) == High <==> e1 > threshold * 1.5
  {
  }

  /**
   * np.where(errors > threshold)[0] restricted to indices from `from` on: the indices whose
   * error is strictly above the threshold, in ascending order.
   */
  function FlaggedFrom(errors: seq<real>, threshold: real, from: nat): (idx: seq<nat>)
    requires from <= |errors|
    ensures |idx| <= |errors| - from
    ensures forall k :: 0 <= k < |idx| ==> from <= idx[k] < |errors| && errors[idx[k]] > threshold
    ensures forall k, l :: 0 <= k < l < |idx| ==> idx[k] < idx[l]
    ensures forall i :: from <= i < |errors| && errors[i] > threshold ==> i in idx
    decreases |errors| - from
  {
    if from == |errors| then []
    else
      var rest := FlaggedFrom(errors, threshold, from + 1);
      if errors[from] > threshold then [from] + rest else rest
  }

  /** The indices of all flagged sequences, ascending. */
  function AnomalyIndices(errors: seq<real>, threshold: real): seq<nat>
  {
    FlaggedFrom(errors, threshold, 0)
  }

  /** An index is flagged exactly when its error is strictly above the threshold; an error equal to it is not. */
  lemma FlaggedIffAboveThreshold(errors: seq<real>, threshold: real, i: nat)
    requires i < |errors|
    ensures i in AnomalyIndices(errors, threshold) <==> errors[i] > threshold
    ensures errors[i] == threshold ==> i !in AnomalyIndices(errors, threshold)
  {
  }

  /** The record describing one flagged sequence. */
  datatype Detail = Detail(
    sequenceId: nat, rowStart: nat, rowEnd: nat, error: real, threshold: real,
    severity: Severity, sampleData: Option<seq<Cell>>)

  /** The detail of sequence idx: rows idx-(idx+10), its error and severity, and row idx of the upload when it exists. */
  function DetailFor(t: Table, errors: seq<real>, threshold: real, idx: nat): Detail
    requires idx < |errors|
  {
    var d := Detail(idx, idx, idx + SeqLength, errors[idx], threshold, SeverityOf(errors[idx], threshold), None);
    if idx < |t.rows| then d.(sampleData := Some(t.rows[idx])) else d
  }

  /** The details of the first MaxDetails flagged indices, in order. */
  function ExpectedDetails(t: Table, errors: seq<real>, threshold: real, indices: seq<nat>): seq<Detail>
    requires forall k :: 0 <= k < |indices| ==> indices[k] < |errors|
  {
    seq(Min(MaxDetails, |indices|), k requires 0 <= k < Min(MaxDetails, |indices|) =>
      DetailFor(t, errors, threshold, indices[k]))
  }

  /** The loop of detect_anomalies (app.py:259-278) over anomaly_indices[:100]. */
  method BuildDetails(t: Table, errors: seq<real>, threshold: real, indices: seq<nat>) returns (details: seq<Detail>)
    requires forall k :: 0 <= k < |indices| ==> indices[k] < |errors|
    ensures details == ExpectedDetails(t, errors, threshold, indices)
  {
    var n := Min(MaxDetails, |indices|);
    details := [];
    for j := 0 to n
      invariant |details| == j
      invariant forall k :: 0 <= k < j ==> details[k] == DetailFor(t, errors, threshold, indices[k])
    {
      var idx := indices[j];
      var detail := Detail(idx, idx, idx + SeqLength, errors[idx], threshold, SeverityOf(errors[idx], threshold), None);
      if idx < |t.rows| {
        detail := detail.(sampleData := Some(t.rows[idx]));
      }
      details := details + [detail];
    }
  }

  // ---------------------------------------------------------------------------
  // The report
  // ---------------------------------------------------------------------------

  /** count / total * 100, or 0 when there is nothing to divide by. */
  function Percentage(count: nat, total: nat): (p: real)
    ensures total == 0 ==> p == 0.0
    ensures count <= total ==> 0.0 <= p <= 100.0
    ensures count == 0 ==> p == 0.0
    ensures 0 < count == total ==> p == 100.0
  {
    if total > 0 then Ratio(count, total) * 100.0 else 0.0
  }

  /**
   * The dictionary detect_anomalies returns. A failed scan carries an error and reports no
   * anomalies, no details and no samples; a successful one carries no error.
   */
  datatype ScanReport = ScanReport(
    error: Option<ScanError>, anomaliesCount: nat, details: seq<Detail>, totalSamples: nat,
    threshold: Option<real>, percentage: Option<real>)

  function FailureReport(e: ScanError): ScanReport
  {
    ScanReport(Some(e), 0, [], 0, None, None)
  }

  /** The report of a scan whose sequences were all scored. */
  function SuccessReport(t: Table, errors: seq<real>, threshold: real): ScanReport
  {
    var indices := AnomalyIndices(errors, threshold);
    ScanReport(None, |indices|, ExpectedDetails(t, errors, threshold, indices), |errors|,
               Some(threshold), Some(Percentage(|indices|, |errors|)))
  }

  /** What detect_anomalies reports for an upload, given the loaded model (if any) and threshold. */
  function Scan(t: Table, model: Option<Matrix -> Matrix>, threshold: real, normalize: Matrix -> Matrix): ScanReport
    requires WellFormed(t)
  {
    if model.None? then FailureReport(ModelNotLoaded)
    else
      var pre := Preprocessed(t, normalize);
      if pre.Failure? then FailureReport(pre.error)
      else if !Scorable(pre.value, model.value) then FailureReport(ShapeMismatch)
      else SuccessReport(t, ReconstructionErrors(pre.value, model.value), threshold)
  }

  /** detect_anomalies (app.py:223-304): any failure becomes a report carrying the error. */
  method DetectAnomalies(t: Table, model: Option<Matrix -> Matrix>, threshold: real, normalize: Matrix -> Matrix)
    returns (report: ScanReport)
    requires WellFormed(t)
    ensures report == Scan(t, model, threshold, normalize)
  {
    if model.None? {
      return FailureReport(ModelNotLoaded);
    }
    var pre := PreprocessForDetection(t, normalize);
    if pre.Failure? {
      return FailureReport(pre.error);
    }
    var sequences := pre.value;
    if !Scorable(sequences, model.value) {
      return FailureReport(ShapeMismatch);
    }
    var errors := ReconstructionErrors(sequences, model.value);
    var indices := AnomalyIndices(errors, threshold);
    var details := BuildDetails(t, errors, threshold, indices);
    var percentage := Percentage(|indices|, |errors|);
    report := ScanReport(None, |indices|, details, |errors|, Some(threshold), Some(percentage));
  }

  /** The status code of the upload route: 500 exactly when the report carries an error. */
  function UploadStatus(report: ScanReport): (code: int)
    ensures code == 500 <==> report.error.Some?
    ensures code == 200 <==> report.error.None?
  {
    if report.error.Some? then 500 else 200
  }

  /** Every failed scan reports zero anomalies, no details and zero samples, and is answered with 500. */
  lemma FailedScanIsEmpty(t: Table, model: Option<Matrix -> Matrix>, threshold: real, normalize: Matrix -> Matrix)
    requires WellFormed(t)
    ensures var r := Scan(t, model, threshold, normalize);
            r.error.Some? ==> r.anomaliesCount == 0 && r.details == [] && r.totalSamples == 0 && UploadStatus(r) == 500
    ensures model.None? ==> Scan(t, model, threshold, normalize).error == Some(ModelNotLoaded)
  {
  }

  /**
   * The summary of a successful scan: one sample per window, anomalies_count counts every
   * flagged window and is at most total_samples, the percentage lies in [0, 100], the
   * threshold is echoed, and there are min(100, anomalies_count) details.
   */
  lemma SuccessfulScanSummary(t: Table, model: Option<Matrix -> Matrix>, threshold: real, normalize: Matrix -> Matrix)
    requires WellFormed(t)
    requires Scan(t, model, threshold, normalize).error.None?
    ensures model.Some? && Preprocessed(t, normalize).Success? && Scorable(Preprocessed(t, normalize).value, model.value)
    ensures var r := Scan(t, model, threshold, normalize);
            var w := Preprocessed(t, normalize).value;
            var errors := ReconstructionErrors(w, model.value);
            r.totalSamples == |w| &&
            r.anomaliesCount == |AnomalyIndices(errors, threshold)| <= r.totalSamples &&
            r.percentage.Some? && 0.0 <= r.percentage.value <= 100.0 &&
            r.threshold == Some(threshold) &&
            |r.details| == Min(MaxDetails, r.anomaliesCount) &&
            UploadStatus(r) == 200
  {
    var w := Preprocessed(t, normalize).value;
    var errors := ReconstructionErrors(w, model.value);
    assert Scan(t, model, threshold, normalize) == SuccessReport(t, errors, threshold);
  }

  /**
   * With a shape-preserving scaler a successful scan of N rows scores N - 10 windows, so
   * every flagged window has a row of the upload to sample, and its details are those of
   * DetailsDescribeFlagged.
   */
  lemma SuccessfulScanCoversRows(t: Table, model: Option<Matrix -> Matrix>, threshold: real, normalize: Matrix -> Matrix)
    requires WellFormed(t) && PreservesShape(normalize)
    requires Scan(t, model, threshold, normalize).error.None?
    ensures model.Some? && Preprocessed(t, normalize).Success? && Scorable(Preprocessed(t, normalize).value, model.value)
    ensures var r := Scan(t, model, threshold, normalize);
            var errors := ReconstructionErrors(Preprocessed(t, normalize).value, model.value);
            r.totalSamples == |errors| == |t.rows| - SeqLength &&
            r.details == ExpectedDetails(t, errors, threshold, AnomalyIndices(errors, threshold))
  {
    var w := Preprocessed(t, normalize).value;
    var errors := ReconstructionErrors(w, model.value);
    var selected := SelectFeatures(t).value;
    assert |normalize(selected)| == |t.rows|;
    assert Scan(t, model, threshold, normalize) == SuccessReport(t, errors, threshold);
  }

  /**
   * The details built from the flagged indices of errors, for a table with more rows than
   * errors: the first flagged windows in ascending order, each with its error above the
   * threshold, rows idx to idx + 10, the global threshold, the severity of its error, and
   * row idx of the upload as sample data.
   */
  lemma DetailsDescribeFlagged(t: Table, errors: seq<real>, threshold: real)
    requires |errors| < |t.rows|
    ensures var indices := AnomalyIndices(errors, threshold);
            var details := ExpectedDetails(t, errors, threshold, indices);
            (forall k, l :: 0 <= k < l < |details| ==> details[k].sequenceId < details[l].sequenceId) &&
            forall k :: 0 <= k < |details| ==>
              var d := details[k];
              d.sequenceId == indices[k] && d.sequenceId < |errors| && d.error == errors[d.sequenceId] && d.error > threshold &&
              d.rowStart == d.sequenceId && d.rowEnd == d.sequenceId + SeqLength &&
              d.threshold == threshold && d.severity == SeverityOf(d.error, threshold) &&
              d.sampleData == Some(t.rows[d.sequenceId])
  {
  }
}
