# IoT flow anomaly detector: a Dafny model of its scoring pipeline

The modelled system takes CSV uploads of time-ordered IoT network-flow records. It
cuts them into overlapping windows of ten rows and scores each window by how badly an
LSTM autoencoder reconstructs it. A window is flagged when its error is strictly above
a threshold. The system then reports the flagged windows with a severity. Offline
scripts choose that threshold from training and test errors. This project models the
deterministic part of that pipeline and proves what it promises:

- `preprocess.dfy` (module `Preprocess`) covers `models/preprocess.py`:
  - the sliding window of `create_sequences`;
  - the label mapping `{'benign': 0, 'malicious': 1}` and the label alignment `y[seq_length:]` of `preprocess_pipeline`;
  - the column bookkeeping of `clean_data`: one-hot expansion of categorical columns, and the numeric columns that are present and get scaled.
- `train_model.dfy` (module `TrainModel`) covers `models/train_model.py`:
  - the per-sequence mean squared reconstruction error;
  - flagging by `errors > threshold`;
  - the confusion counts and the guarded ratios of `evaluate_model`;
  - the method dispatch of `determine_threshold`.
- `app.py` is modelled in `app.dfy` (module `App`):
  - `preprocess_for_detection`: feature validation, feature selection, the length check and the window loop;
  - `detect_anomalies`: errors, flagged indices, the detail list capped at 100, severity, summary and failure reports;
  - the status code the upload route derives from a report.
- `optimize_threshold.dfy` (module `OptimizeThreshold`) covers `find_optimal_threshold` in `models/optimize_threshold.py`:
  - the nine candidate strategies in dictionary order;
  - the pass rule and the strict "greater detection rate" selection;
  - the percentile fallback and its penalised score.
- `common.dfy` (module `Common`) holds option and result types, 0/1 labels, and the order-preserving list filters that model Python list comprehensions.

External collaborators are parameters:
- the trained autoencoder is an optional function `Matrix -> Matrix` (absent when no model is loaded);
- the fitted `StandardScaler` is a function `Matrix -> Matrix`;
- `pd.get_dummies`' discovery of category values is a function from column name to values;
- numpy's mean, standard deviation and percentiles of the training errors are an `ErrorStats` value.

Two facts about the code that the model keeps exactly:
- **Window count.** `create_sequences` and the loop of `preprocess_for_detection` run `range(len − L)` for `N` rows and window length `L`, so they produce `N − L` windows. The window starting at row `N − L` is never produced, and nothing is produced when `N ≤ L`.
- **Severity.** `detect_anomalies` has exactly two tiers: High strictly above 1.5 × threshold, Medium otherwise.

## Model

| member | source | states |
|---|---|---|
| `Preprocess.Windows` | models/preprocess.py:84-93 | no windows when the data has at most `seqLength` rows, otherwise `len − seqLength` of them; window `i` is rows `i .. i+seqLength−1` and is followed by at least one row |
| `Preprocess.CreateSequences` | models/preprocess.py:69-97 | the append loop returns exactly the windows of `Windows` |
| `Preprocess.WindowLengths` | models/preprocess.py:88-91 | every window holds exactly `seqLength` rows |
| `Preprocess.ConsecutiveWindowsOverlap` | models/preprocess.py:89-90 | stride 1: window `i` without its first row is window `i+1` without its last row |
| `Preprocess.EncodeLabel` | models/preprocess.py:153-154 | `'benign'` maps to 0 and `'malicious'` maps to 1, each in both directions; every other string maps to NaN (None) |
| `Preprocess.EncodeLabelName` | models/preprocess.py:154 | the mapping is onto: each bit is the image of its label name |
| `Preprocess.EncodeLabels` | models/preprocess.py:150-155 | string labels are mapped element-wise and integer labels pass through unchanged; the length is kept |
| `Preprocess.SeparateLabel` | models/preprocess.py:149-155 | labels are taken iff `label_col` is given, non-empty and a column; then exactly that column leaves the header and the order of the rest is kept; otherwise the header is unchanged |
| `Preprocess.AlignLabels` | models/preprocess.py:161-165 | with sequences, the labels become `y[seqLength:]` (empty when too short); without sequences they are unchanged |
| `Preprocess.LabelsPairWithNextRow` | models/preprocess.py:160-165 | with one label per row, there is one label per window, and window `i` is paired with the label of row `i + seqLength`, the row right after it |
| `Preprocess.DummyColumns` | models/preprocess.py:52-53 | one indicator column `col_value` per category value, in the order of the values |
| `Preprocess.EncodedLayout` | models/preprocess.py:47-54 | without name clashes, the loop keeps the non-categorical columns in order and appends the indicator columns at the end, in categorical order |
| `Preprocess.CleanData` | models/preprocess.py:28-66 | the loop yields the columns and `encoded_columns` of `Encoded`; the scaled columns are the requested numeric columns still present, every occurrence kept (repeats included) and in request order; a scaler is fitted iff that list is non-empty |
| `TrainModel.MeanSquaredError` | models/train_model.py:72-73 | the mean of squared differences over all cells is non-negative and zero for an exact reconstruction |
| `TrainModel.ReconstructionErrors` | models/train_model.py:58-75 | one error per sequence: the mean squared difference between the sequence and its reconstruction, never negative |
| `TrainModel.Predictions` | models/train_model.py:118 | one prediction per error; it is 1 iff the error is strictly above the threshold |
| `TrainModel.DetectAnomalies` | models/train_model.py:104-120 | predictions and errors have one entry per sequence; a prediction is 1 iff its sequence's error exceeds the threshold |
| `TrainModel.ExactReconstructionNotFlagged` | models/train_model.py:117-120 | at a non-negative threshold, a sequence the model reproduces exactly is never flagged |
| `TrainModel.ConfusionCounts` | models/train_model.py:137 | the four counts partition the samples; `tp+fn` is the count of actual positives, `tp+fp` of predicted positives, `tp+tn` of agreements |
| `TrainModel.Ratio` | models/train_model.py:141-144 | a guarded ratio is 0 on a zero denominator; for `num ≤ den` it is a fraction in [0,1] with `r·den = num`; it is 0 for `num = 0` and 1 for `num = den > 0` |
| `TrainModel.F1` | models/train_model.py:143 | for precision and recall in [0,1] the F1 score lies in [0,1] and is 0 iff precision or recall is 0 |
| `TrainModel.Evaluate` | models/train_model.py:123-160 | the counts are the confusion counts: they partition the samples, tp + fn are the actual positives, tp + fp the predicted positives and tp + tn the agreements, which fixes all four; accuracy is (tp + tn) over the samples; recall (= detection rate) is tp over actual positives, precision is tp over predicted positives, FPR is fp over actual negatives; F1 is built from them; the threshold is echoed |
| `TrainModel.MetricsBounds` | models/train_model.py:140-144 | every rate `evaluate_model` reports lies in [0,1] |
| `TrainModel.PerfectPredictions` | models/train_model.py:137-144 | perfect predictions give accuracy 1, FPR 0, no false positives or negatives, and recall and precision 1 when positives exist |
| `TrainModel.DetermineThreshold` | models/train_model.py:78-101 | `'percentile'` is the 95th percentile; `'iqr'` is `q75 + 1.5·(q75 − q25)`; `'mean_std'` and every other name give `mean + k·std` |
| `TrainModel.UnknownMethodIsMeanStd` | models/train_model.py:98-99 | an unrecognised method name gives the same threshold as `'mean_std'` |
| `TrainModel.ThresholdLowerBounds` | models/train_model.py:90-97 | with ordered percentiles the IQR rule is at least q75, and `mean + k·std` is at least the mean for `k ≥ 0` |
| `App.WorkingColumns` | app.py:105-115 | the working columns are the uploaded ones minus `ts` and `label` |
| `App.MissingFrom` | app.py:117-123 | the missing list holds exactly the expected features absent from the upload, in the fixed feature order; it is empty iff all four are present |
| `App.SelectRow` | app.py:125-126 | a row converts iff all four selected cells are numbers; the converted row holds them in feature order |
| `App.SelectFeatures` | app.py:125-126 | the table converts iff every row does; row `i` of the matrix is the converted row `i` |
| `App.PreprocessForDetection` | app.py:89-148 | the function reports missing features first, then non-numeric features, then too few rows; otherwise it returns the windows of the normalised feature matrix |
| `App.MissingFeaturesReported` | app.py:120-123 | an upload is rejected for missing features iff some expected feature is absent; the error lists exactly those, in feature order |
| `App.ShortTableRejected` | app.py:136-139 | valid features in at most ten rows give the "more than 10 rows" error |
| `App.NormalizedShape` | app.py:128-134 | the normalised matrix has one row of four values per uploaded row |
| `App.LongTableAccepted` | app.py:136-146 | valid features in more than ten rows are always windowed |
| `App.WindowRowWidths` | app.py:141-144 | every window is ten rows of the feature width |
| `App.LongTableWindows` | app.py:136-146 | N > 10 rows give N − 10 windows; window `i` is normalised rows `i..i+9`, each with four features |
| `App.SeverityTiers` | app.py:270 | High iff the error is strictly above 1.5 × threshold, so exactly 1.5 × threshold is Medium; severity never decreases as the error grows; at a non-negative threshold a High error is above the threshold |
| `App.FlaggedFrom` | app.py:255-256 | the flagged indices are ascending, in range and above the threshold, and include every index whose error is above the threshold |
| `App.FlaggedIffAboveThreshold` | app.py:255-256 | an index is flagged iff its error is strictly above the threshold; an error equal to the threshold is not flagged |
| `App.BuildDetails` | app.py:259-278 | the loop builds one detail per index for the first `min(100, n)` flagged indices, in order |
| `App.DetailsDescribeFlagged` | app.py:259-278 | each detail names a flagged window in ascending order, with its error above the threshold, rows `idx..idx+10`, the global threshold, the severity of its error, and row `idx` of the upload as sample |
| `App.Percentage` | app.py:285 | the percentage is 0 when there are no samples or no anomalies, lies in [0,100] when count ≤ total, and is 100 when every sample is flagged |
| `App.DetectAnomalies` | app.py:223-304 | the report is: "model not loaded" when there is no model; the preprocessing error when preprocessing fails; otherwise the success report built from errors, flagged indices, capped details and percentage |
| `App.UploadStatus` | app.py:349-351 | the route answers 500 iff the report carries an error |
| `App.FailedScanIsEmpty` | app.py:237-304 | every failed scan reports 0 anomalies, no details and 0 samples, and gets 500; no model means the "model not loaded" error |
| `App.SuccessfulScanSummary` | app.py:280-286 | a successful scan: one sample per window; anomalies_count is the number of flagged windows and at most the number of samples; percentage in [0,100]; threshold echoed; `min(100, count)` details; status 200 |
| `App.SuccessfulScanCoversRows` | app.py:246-283 | a successful scan of N rows scores N − 10 windows, and its details are those of the flagged windows |
| `OptimizeThreshold.Strategies` | models/optimize_threshold.py:43-53 | nine candidates: mean + 3, 2, 1 std and the mean, then the 95th to 75th percentiles; with ordered statistics each family goes from strictest to most lenient |
| `OptimizeThreshold.StatusOf` | models/optimize_threshold.py:72-84 | PASS, HIGH FPR, LOW DET and FAIL partition the candidates by the two requirements, each iff its condition holds |
| `OptimizeThreshold.BestPassingIsUnique` | models/optimize_threshold.py:75 | the strict comparison keeps at most one candidate: ties go to the earliest |
| `OptimizeThreshold.SelectStrategy` | models/optimize_threshold.py:59-84 | nothing is kept iff no candidate passes; otherwise threshold, name and metrics all belong to the passing candidate with the greatest detection rate, the first such candidate on ties |
| `OptimizeThreshold.FallbackScoreRange` | models/optimize_threshold.py:101-104 | the penalised score lies in [−2, 1], and is at least −target while the FPR meets the target |
| `OptimizeThreshold.ScoreAtLeastMinusTwo` | models/optimize_threshold.py:95-104 | every fallback score on real test metrics is at least −2 |
| `OptimizeThreshold.PercentileName` | models/optimize_threshold.py:110 | a two-digit percentile is named `"NNth percentile"`, and its first two characters are the decimal digits of the percentile |
| `OptimizeThreshold.PercentileNamesDiffer` | models/optimize_threshold.py:110 | distinct percentiles get distinct strategy names |
| `OptimizeThreshold.PercentileFallback` | models/optimize_threshold.py:95-110 | nothing is kept iff no score beats the initial best; otherwise the kept selection is the best-scoring percentile in 50..99, the first one on ties |
| `OptimizeThreshold.FindOptimalThresholdAsWritten` | models/optimize_threshold.py:19-126 | as written (initial best score −1), nothing is selected iff no candidate passes and no percentile scores above −1; when a candidate passes, the best passing candidate supplies threshold, name and metrics; otherwise any selection is the best percentile that beats −1 |
| `OptimizeThreshold.ExampleMetrics` | models/optimize_threshold.py:97-104 | on the example test set, every threshold in [0, 10) has detection rate 0 and FPR 1 |
| `OptimizeThreshold.AsWrittenSelectsNothing` | models/optimize_threshold.py:95-113 | on the example no candidate passes and every percentile scores −2, so the as-written rule selects nothing |
| `OptimizeThreshold.FindOptimalThreshold` | models/optimize_threshold.py:19-126 | with the fallback starting from −∞ a selection is always made: the best passing candidate if one passes, else the best-scoring percentile |

## Left out

- TrainModel.MeanSquaredError: states non-negativity and "zero for an exact reconstruction" only, not the converse (zero only for an exact reconstruction). The converse needs strict real inequalities over products, which the solver does not prove reliably.
- TrainModel.ReconstructionErrors: inherits the weaker statement of MeanSquaredError.
- TrainModel.Evaluate: `confusion_matrix(...).ravel()` on inputs where `y_true` and `y_pred` together hold only one class gives a 1×1 matrix, and unpacking it into four counts raises ValueError. The model computes the four counts anyway. It also requires non-empty, equal-length inputs, where sklearn raises.
- App.PreprocessForDetection: for an upload with no data rows, `StandardScaler.fit_transform` raises before the length check; the model reports TooFewRows instead. A feature column holding text is the NonNumericFeature error, standing in for the scaler's ValueError.
- App.DetectAnomalies: a model output of the wrong shape (numpy broadcasting or a predict error) is the ShapeMismatch error. The textual messages of errors are not modelled, only which error occurs.
- App.DetectAnomalies: the `rows` field is kept as the two numbers `idx` and `idx + 10` rather than the string `"idx-idx+10"`. `sample_data` is the raw row of cells rather than its `str()` rendering.
- The labels `preprocess_for_detection` separates (app.py:110-115) are never used by the detector and are not modelled.
- The window loop of `preprocess_for_detection` (app.py:141-144) is the same loop as `create_sequences`. The model calls CreateSequences there, which is only reached when more than ten rows exist.
- The trained autoencoder, `model.predict` and the fitted `StandardScaler` are function parameters. Their numeric behaviour (TensorFlow, floating point) is not modelled; PreservesShape assumes only that the scaler keeps the shape.
- `pd.read_csv`, `dropna` and NaN values are left out. The uploaded table is a well-formed Table of numbers and strings. A label string outside the mapping becomes None, standing for the NaN pandas produces; the source does not drop those either.
- `pd.get_dummies` is the parameter `categoriesOf`, which gives the category values of a column. The scaler's fitted means and deviations are not modelled, only which columns it is fitted on.
- numpy's `mean`, `std` and `percentile` over the training errors are inputs (ErrorStats) rather than computations.
- `load_ml_model` (file lookup, caching, the default threshold 0.12) is left out. The model and the threshold are inputs to `App.DetectAnomalies`.
- The Flask routes other than the status decision are left out, as are the database, the email alert, every `print`, the `__main__` blocks, `split_train_test` and the training code. They are I/O or training, outside the scoring pipeline.
- Floating point is modelled as exact real arithmetic. Python integers and ratios are unbounded there as well, so no wrap-around arises.

## Findings

| source | as written | input that shows it | evidently intended | confidence | as-written member | corrected member |
|---|---|---|---|---|---|---|
| models/optimize_threshold.py:95-113 | the percentile fallback starts from `best_score = -1` and keeps a percentile only if its score is strictly greater; the score `detection_rate − penalised FPR` can be as low as −2, so every percentile may be rejected, leaving `best_threshold` as `None`, and formatting it at line 113 raises TypeError | training errors all 1.0 (every statistic 1.0, std 0), `y_test = [1, 0]`, test errors `[0.0, 10.0]`, `target_fpr = 0.10`: every candidate and every percentile threshold is 1.0, giving detection rate 0, FPR 1 and score −2 | the fallback should always pick the best-balanced percentile, i.e. start from −∞ | not executed | `OptimizeThreshold.FindOptimalThresholdAsWritten`, `OptimizeThreshold.AsWrittenSelectsNothing` | `OptimizeThreshold.FindOptimalThreshold` |
