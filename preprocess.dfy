/**
 * The table preparation of models/preprocess.py: the column bookkeeping of clean_data
 * (one-hot expansion of categorical columns, choice of the numeric columns to scale),
 * the label mapping and label alignment of preprocess_pipeline, and create_sequences,
 * the stride-1 sliding window that turns rows into fixed-length sequences.
 *
 * Rows are kept abstract (type parameter T); the scaler, dropna and get_dummies' discovery
 * of category values are not modelled (the latter is the parameter categoriesOf).
 */
module Preprocess {
  import opened Common

  /** The window length: the default of create_sequences and the one the detection service uses. */
  const SeqLength: nat := 10

  // ---------------------------------------------------------------------------
  // Windowing
  // ---------------------------------------------------------------------------

  /**
   * The windows create_sequences returns: none when |data| <= seqLength, otherwise
   * |data| - seqLength windows with stride 1, window i being data[i .. i + seqLength].
   * Every window is followed by at least one row, so the last possible window
   * (the one starting at |data| - seqLength) is never produced.
   */
  function Windows<T>(data: seq<T>, seqLength: nat): (w: seq<seq<T>>)
    ensures |w| == if |data| <= seqLength then 0 else |data| - seqLength
    ensures forall i :: 0 <= i < |w| ==> i + seqLength < |data| && w[i] == data[i..i + seqLength]
    decreases |data|
  {
    if |data| <= seqLength then []
    else
      var rest := Windows(data[1..], seqLength);
      assert forall i :: 0 <= i < |rest| ==> rest[i] == data[i + 1..i + 1 + seqLength];
      [data[..seqLength]] + rest
  }

  /** create_sequences (models/preprocess.py:69-97): the loop that appends one window per start index. */
  method CreateSequences<T>(data: seq<T>, seqLength: nat) returns (sequences: seq<seq<T>>)
    ensures sequences == Windows(data, seqLength)
  {
    if |data| <= seqLength {
      return [];
    }
    sequences := [];
    var i := 0;
    while i < |data| - seqLength
      invariant 0 <= i <= |data| - seqLength
      invariant |sequences| == i
      invariant forall k :: 0 <= k < i ==> sequences[k] == data[k..k + seqLength]
    {
      sequences := sequences + [data[i..i + seqLength]];
      i := i + 1;
    }
  }

  /** Every window has exactly seqLength rows. */
  lemma WindowLengths<T>(data: seq<T>, seqLength: nat)
    ensures forall w :: w in Windows(data, seqLength) ==> |w| == seqLength
  {
  }

  /** Consecutive windows overlap in seqLength - 1 rows: window i shifted by one row is window i + 1 without its last row. */
  lemma ConsecutiveWindowsOverlap<T>(data: seq<T>, seqLength: nat, i: nat)
    requires 1 <= seqLength
    requires i + 1 < |Windows(data, seqLength)|
    ensures Windows(data, seqLength)[i][1..] == Windows(data, seqLength)[i + 1][..seqLength - 1]
  {
    var w := Windows(data, seqLength);
    assert w[i][1..] == data[i + 1..i + seqLength];
    assert w[i + 1][..seqLength - 1] == data[i + 1..i + seqLength];
  }

  // ---------------------------------------------------------------------------
  // Labels
  // ---------------------------------------------------------------------------

  /** A label column as pandas reads it: strings (dtype object) or integers. */
  datatype LabelColumn = TextLabels(names: seq<string>) | IntLabels(values: seq<int>)

  /** The mapping {'benign': 0, 'malicious': 1}; any other string becomes NaN (None). */
  function EncodeLabel(name: string): (b: Option<Bit>)
    ensures b == Some(0) <==> name == "benign"
    ensures b == Some(1) <==> name == "malicious"
    ensures b == None <==> name != "benign" && name != "malicious"
  {
    if name == "benign" then Some(0)
    else if name == "malicious" then Some(1)
    else None
  }

  /** The label name that EncodeLabel maps to a bit. */
  function LabelName(b: Bit): string
  {
    if b == 0 then "benign" else "malicious"
  }

  lemma EncodeLabelName(b: Bit)
    ensures EncodeLabel(LabelName(b)) == Some(b)
  {
  }

  /**
   * The label values preprocess_pipeline keeps: string labels are mapped, numeric
   * labels pass through; a None entry is the NaN pandas produces for an unknown string.
   */
  function EncodeLabels(column: LabelColumn): (y: seq<Option<int>>)
    ensures column.TextLabels? ==> (|y| == |column.names| &&
      forall i :: 0 <= i < |y| ==> y[i] == (match EncodeLabel(column.names[i]) case None => None case Some(b) => Some(b as int)))
    ensures column.IntLabels? ==> |y| == |column.values| && forall i :: 0 <= i < |y| ==> y[i] == Some(column.values[i])
    decreases match column case TextLabels(n) => |n| case IntLabels(v) => |v|
  {
    match column
    case TextLabels(names) =>
      if names == [] then []
      else
        var head := match EncodeLabel(names[0]) case None => None case Some(b) => Some(b as int);
        [head] + EncodeLabels(TextLabels(names[1..]))
    case IntLabels(values) =>
      if values == [] then [] else [Some(values[0])] + EncodeLabels(IntLabels(values[1..]))
  }

  /**
   * The feature columns left once preprocess_pipeline has separated the label column,
   * and whether labels were taken. A missing or empty label_col, or one that is not a
   * column, leaves the table as it is.
   */
  function SeparateLabel(header: seq<string>, labelCol: Option<string>): (r: (seq<string>, bool))
    ensures r.1 <==> labelCol.Some? && labelCol.value != "" && labelCol.value in header
    ensures r.1 ==> labelCol.value !in r.0 && forall c :: c != labelCol.value ==> (c in r.0 <==> c in header)
    ensures r.1 ==> IsSubsequence(r.0, header)
    ensures !r.1 ==> r.0 == header
  {
    if labelCol.Some? && labelCol.value != "" && labelCol.value in header then
      (Drop(header, {labelCol.value}), true)
    else (header, false)
  }

  /**
   * Label alignment after windowing: when sequences were produced, the labels become
   * y[seqLength:] (Python slicing: empty when seqLength > |y|); with no sequences they are
   * left untrimmed.
   */
  function AlignLabels<Y>(y: seq<Y>, sequenceCount: nat, seqLength: nat): (r: seq<Y>)
    ensures sequenceCount == 0 ==> r == y
    ensures sequenceCount > 0 ==> |r| == (if seqLength <= |y| then |y| - seqLength else 0)
    ensures sequenceCount > 0 ==> forall i :: 0 <= i < |r| ==> r[i] == y[i + seqLength]
  {
    if sequenceCount > 0 then (if seqLength <= |y| then y[seqLength..] else []) else y
  }

  /**
   * When one label per row is supplied and windows exist, there is exactly one label
   * per window, and window i is paired with row i + seqLength, the row just after it.
   */
  lemma LabelsPairWithNextRow<T, Y>(data: seq<T>, y: seq<Y>, seqLength: nat)
    requires |y| == |data|
    requires |data| > seqLength
    ensures var w := Windows(data, seqLength);
            var labels := AlignLabels(y, |w|, seqLength);
            |labels| == |w| && forall i :: 0 <= i < |w| ==> labels[i] == y[i + seqLength] && w[i] == data[i..i + seqLength]
  {
  }

  // ---------------------------------------------------------------------------
  // Column bookkeeping of clean_data
  // ---------------------------------------------------------------------------

  /** The indicator columns pd.get_dummies(prefix=col) creates for the category values cats. */
  function DummyColumns(col: string, cats: seq<string>): (names: seq<string>)
    ensures |names| == |cats|
    ensures forall i :: 0 <= i < |cats| ==> names[i] == col + "_" + cats[i]
  {
    if cats == [] then [] else [col + "_" + cats[0]] + DummyColumns(col, cats[1..])
  }

  /**
   * The columns after the categorical loop of clean_data, paired with the encoded column
   * names it collects. Each categorical column still present at its turn is dropped and
   * its indicator columns are appended at the end.
   */
  function Encoded(header: seq<string>, categorical: seq<string>, categoriesOf: string -> seq<string>): (r: (seq<string>, seq<string>))
    decreases |categorical|
  {
    if categorical == [] then (header, [])
    else
      var col := categorical[0];
      if col in header then
        var dummies := DummyColumns(col, categoriesOf(col));
        var rest := Encoded(Drop(header, {col}) + dummies, categorical[1..], categoriesOf);
        (rest.0, dummies + rest.1)
      else Encoded(header, categorical[1..], categoriesOf)
  }

  /** No indicator column name generated for a categorical column is itself a categorical column name. */
  predicate NoNameClash(categorical: seq<string>, categoriesOf: string -> seq<string>)
  {
    forall c, d :: c in categorical && d in categorical ==> c !in DummyColumns(d, categoriesOf(d))
  }

  /**
   * Without name clashes, the encoded table keeps the non-categorical columns in their
   * order and appends all indicator columns after them, in categorical order.
   */
  lemma {:induction false} EncodedLayout(header: seq<string>, categorical: seq<string>, categoriesOf: string -> seq<string>)
    requires NoNameClash(categorical, categoriesOf)
    ensures Encoded(header, categorical, categoriesOf).0 ==
            Drop(header, Elements(categorical)) + Encoded(header, categorical, categoriesOf).1
    decreases |categorical|, 1
  {
    if categorical != [] {
      if categorical[0] in header {
        EncodedLayoutPresent(header, categorical, categoriesOf);
      } else {
        NoNameClashTail(categorical, categoriesOf);
        EncodedLayout(header, categorical[1..], categoriesOf);
        DropAbsentColumn(header, categorical[0], Elements(categorical[1..]));
      }
    }
  }

  /** The step of EncodedLayout where the first categorical column is present and gets encoded. */
  lemma {:induction false} EncodedLayoutPresent(header: seq<string>, categorical: seq<string>, categoriesOf: string -> seq<string>)
    requires NoNameClash(categorical, categoriesOf)
    requires categorical != [] && categorical[0] in header
    ensures Encoded(header, categorical, categoriesOf).0 ==
            Drop(header, Elements(categorical)) + Encoded(header, categorical, categoriesOf).1
    decreases |categorical|, 0
  {
    var col, rest := categorical[0], categorical[1..];
    var dummies := DummyColumns(col, categoriesOf(col));
    var h := Drop(header, {col}) + dummies;
    var tail := Encoded(h, rest, categoriesOf);
    var kept := Drop(header, Elements(categorical));
    assert Drop(h, Elements(rest)) == kept + dummies by {
      NoNameClashTail(categorical, categoriesOf);
      DropPresentColumn(header, col, Elements(rest), dummies);
    }
    assert tail.0 == Drop(h, Elements(rest)) + tail.1 by {
      NoNameClashTail(categorical, categoriesOf);
      EncodedLayout(h, rest, categoriesOf);
    }
    EncodedPresentStep(header, categorical, categoriesOf);
    ConcatAssoc(kept, dummies, tail.1);
  }

  /** One turn of the categorical loop on a present column: drop it, append its indicators, continue. */
  lemma EncodedPresentStep(header: seq<string>, categorical: seq<string>, categoriesOf: string -> seq<string>)
    requires categorical != [] && categorical[0] in header
    ensures var dummies := DummyColumns(categorical[0], categoriesOf(categorical[0]));
            var tail := Encoded(Drop(header, {categorical[0]}) + dummies, categorical[1..], categoriesOf);
            Encoded(header, categorical, categoriesOf) == (tail.0, dummies + tail.1)
  {
  }

  /**
   * Splitting the first categorical column off: the rest has no name clashes either, and
   * none of the remaining categorical columns is an indicator column of the first.
   */
  lemma NoNameClashTail(categorical: seq<string>, categoriesOf: string -> seq<string>)
    requires categorical != [] && NoNameClash(categorical, categoriesOf)
    ensures Elements(categorical) == {categorical[0]} + Elements(categorical[1..])
    ensures NoNameClash(categorical[1..], categoriesOf)
    ensures forall c :: c in Elements(categorical[1..]) ==> c !in DummyColumns(categorical[0], categoriesOf(categorical[0]))
  {
    assert categorical == [categorical[0]] + categorical[1..];
    assert forall c :: c in categorical[1..] ==> c in categorical;
  }

  /** Dropping a present column, appending columns outside others, then dropping the others: the appended columns survive at the end. */
  lemma DropPresentColumn(header: seq<string>, col: string, others: set<string>, appended: seq<string>)
    requires forall c :: c in others ==> c !in appended
    ensures Drop(Drop(header, {col}) + appended, others) == Drop(header, {col} + others) + appended
  {
    DropConcat(Drop(header, {col}), appended, others);
    DropTwice(header, {col}, others);
  }

  /** Dropping a column that is not there changes nothing. */
  lemma DropAbsentColumn(header: seq<string>, col: string, others: set<string>)
    requires col !in header
    ensures Drop(header, {col} + others) == Drop(header, others)
  {
    DropTwice(header, others, {col});
    assert others + {col} == {col} + others;
  }

  /**
   * The column-level effect of clean_data (models/preprocess.py:28-66): the categorical loop,
   * then the numeric columns that are present in the resulting table, which the scaler is
   * fitted on; no scaler is fitted when that list is empty.
   */
  method CleanData(header: seq<string>, numericCols: seq<string>, categorical: seq<string>,
                   categoriesOf: string -> seq<string>)
    returns (columns: seq<string>, encoded: seq<string>, scaled: seq<string>, scalerFitted: bool)
    ensures (columns, encoded) == Encoded(header, categorical, categoriesOf)
    ensures forall c :: c in scaled <==> c in numericCols && c in columns
    ensures forall c :: multiset(scaled)[c] == if c in columns then multiset(numericCols)[c] else 0
    ensures IsSubsequence(scaled, numericCols)
    ensures scaled == Keep(numericCols, Elements(columns))
    ensures scalerFitted <==> scaled != []
  {
    columns, encoded := header, [];
    var i := 0;
    assert categorical[i..] == categorical;
    assert encoded + Encoded(header, categorical, categoriesOf).1 == Encoded(header, categorical, categoriesOf).1;
    while i < |categorical|
      invariant 0 <= i <= |categorical|
      invariant Encoded(header, categorical, categoriesOf) ==
                (Encoded(columns, categorical[i..], categoriesOf).0, encoded + Encoded(columns, categorical[i..], categoriesOf).1)
    {
      var col := categorical[i];
      assert categorical[i..][0] == col && categorical[i..][1..] == categorical[i + 1..];
      if col in columns {
        var dummies := DummyColumns(col, categoriesOf(col));
        var next := Drop(columns, {col}) + dummies;
        ghost var rest := Encoded(next, categorical[i + 1..], categoriesOf);
        assert Encoded(columns, categorical[i..], categoriesOf) == (rest.0, dummies + rest.1);
        assert encoded + (dummies + rest.1) == (encoded + dummies) + rest.1;
        encoded := encoded + dummies;
        columns := next;
      } else {
        assert Encoded(columns, categorical[i..], categoriesOf) == Encoded(columns, categorical[i + 1..], categoriesOf);
      }
      i := i + 1;
    }
    assert categorical[i..] == [];
    assert encoded + [] == encoded;
    scaled := Keep(numericCols, Elements(columns));
    scalerFitted := scaled != [];
  }
}
