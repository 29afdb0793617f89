/**
 * Building the training examples from the preprocessed table: the up/down target of each
 * row, the feature columns shifted by one row, and the alignment of both after `dropna`.
 */
module Training {
  import opened Wrappers
  import opened Frames
  import opened Indicators

  /** The feature columns the classifier is fitted on, in this order. */
  const FEATURES: seq<string> := ["open", "high", "low", "close", "volume", "MA_10", "MA_50", "RSI"]

  function RowClose(row: FeatureRow): real
  {
    row.close
  }

  /** `row[name]`: a column of the preprocessed table looked up by its name. */
  function Column(row: FeatureRow, name: string): Option<real>
  {
    if name == "open" then Some(row.open)
    else if name == "high" then Some(row.high)
    else if name == "low" then Some(row.low)
    else if name == "close" then Some(row.close)
    else if name == "volume" then Some(row.volume)
    else if name == "MA_10" then Some(row.ma10)
    else if name == "MA_50" then Some(row.ma50)
    else if name == "RSI" then Some(row.rsi)
    else None
  }

  /** `df[features]` for one row. */
  function FeatureVector(row: FeatureRow): (v: seq<real>)
    ensures |v| == |FEATURES| == 8
  {
    [row.open, row.high, row.low, row.close, row.volume, row.ma10, row.ma50, row.rsi]
  }

  /** The feature vector has eight values, each the column named at the same position of `FEATURES`. */
  lemma FeatureVectorColumns(row: FeatureRow)
    ensures forall k :: 0 <= k < |FEATURES| ==> Column(row, FEATURES[k]) == Some(FeatureVector(row)[k])
  {
  }

  /** A row of the table after the `Price_Change` and `Target` columns are assigned. */
  datatype LabelRow = LabelRow(row: FeatureRow, priceChange: Option<real>, target: int)

  /** `(Price_Change > 0).astype(int)`: a NaN change compares false and gives 0. */
  function Target(change: Option<real>): (t: int)
    ensures t == 0 || t == 1
    ensures t == 1 <==> change.Some? && change.value > 0.0
  {
    if change.Some? && change.value > 0.0 then 1 else 0
  }

  /**
   * The table with `Price_Change = close.diff()` and `Target` assigned: every row is kept as it
   * was, and the change is NaN on the first row only.
   */
  function Labelled(rows: seq<FeatureRow>): (df: seq<LabelRow>)
    ensures |df| == |rows|
    ensures forall i {:trigger df[i]} :: 0 <= i < |rows| ==> df[i].row == rows[i]
    ensures forall i :: 0 <= i < |rows| ==> (df[i].priceChange.None? <==> i == 0)
  {
    var close := ColumnOf(rows, RowClose);
    seq(|rows|, i requires 0 <= i < |rows| => LabelRow(rows[i], Diff(close, i), Target(Diff(close, i))))
  }

  /**
   * The target of row `i` is 1 exactly when its close is strictly above the previous row's
   * close; an equal or lower close, and the first row, give 0.
   */
  lemma LabelledTarget(rows: seq<FeatureRow>, i: nat)
    requires i < |rows|
    ensures Labelled(rows)[i].target == 0 || Labelled(rows)[i].target == 1
    ensures Labelled(rows)[i].target == 1 <==> 1 <= i && rows[i - 1].close < rows[i].close
  {
    var close := ColumnOf(rows, RowClose);
    assert Labelled(rows)[i].target == Target(Diff(close, i));
    if 1 <= i {
      assert close[i - 1] == rows[i - 1].close && close[i] == rows[i].close;
    }
  }

  function TargetOf(r: LabelRow): int
  {
    r.target
  }

  /** `dropna` on the labelled table looks at every column; only `Price_Change` can be NaN there. */
  predicate HasPriceChange(r: LabelRow)
  {
    r.priceChange.Some?
  }

  /** The feature matrix `X` (a row may be NaN) and the target vector `y`, aligned by position. */
  datatype TrainingSet = TrainingSet(X: seq<Option<seq<real>>>, y: seq<int>)

  function FeatureMatrix(rows: seq<FeatureRow>): (m: seq<seq<real>>)
    ensures |m| == |rows|
    ensures forall i {:trigger m[i]} :: 0 <= i < |rows| ==> m[i] == FeatureVector(rows[i])
  {
    seq(|rows|, i requires 0 <= i < |rows| => FeatureVector(rows[i]))
  }

  /**
   * What the training script hands to the train/test split: `X` and `y` have one entry per
   * row after the first, so one fewer than the table has rows.
   */
  function Examples(rows: seq<FeatureRow>): (ts: TrainingSet)
    ensures |ts.X| == |ts.y| == (if rows == [] then 0 else |rows| - 1)
  {
    var df := Labelled(rows);
    var shifted := Shift(FeatureMatrix(rows));
    var index := KeptIndices(df, HasPriceChange);
    KeptIndicesFrom(df, HasPriceChange, 1);
    TrainingSet(Loc(shifted, index), Loc(ColumnOf(df, TargetOf), index))
  }

  /**
   * The script's steps: assign the target columns, shift the feature columns, assign the
   * target columns again, drop the incomplete rows in place, then realign `X` on the
   * surviving labels and take `y`.
   */
  method BuildTrainingSet(rows: seq<FeatureRow>) returns (X: seq<Option<seq<real>>>, y: seq<int>)
    ensures TrainingSet(X, y) == Examples(rows)
  {
    var df := Labelled(rows);
    var shifted := Shift(FeatureMatrix(rows));
    // The second assignment of Price_Change and Target recomputes them from the same close column.
    df := Labelled(rows);
    var index := DropNa(df, HasPriceChange);
    X := Loc(shifted, index);
    y := Loc(ColumnOf(df, TargetOf), index);
  }

  /** `dropna` on the labelled table keeps every row but the first. */
  lemma SurvivingLabels(rows: seq<FeatureRow>)
    ensures KeptIndices(Labelled(rows), HasPriceChange) == seq(if rows == [] then 0 else |rows| - 1, k => k + 1)
  {
    KeptIndicesFrom(Labelled(rows), HasPriceChange, 1);
  }

  /** Example `k` carries the features of row `k`, taken through the shift from the row before row `k + 1`. */
  lemma ExampleFeatures(rows: seq<FeatureRow>, k: nat)
    requires k + 1 < |rows|
    ensures Examples(rows).X[k] == Some(FeatureVector(rows[k]))
  {
    var index := KeptIndices(Labelled(rows), HasPriceChange);
    assert index[k] == k + 1 by {
      SurvivingLabels(rows);
    }
    var shifted := Shift(FeatureMatrix(rows));
    assert Examples(rows).X == Loc(shifted, index);
  }

  /** Example `k` is labelled 1 exactly when the close rises strictly from row `k` to row `k + 1`. */
  lemma ExampleTarget(rows: seq<FeatureRow>, k: nat)
    requires k + 1 < |rows|
    ensures Examples(rows).y[k] == 1 <==> rows[k].close < rows[k + 1].close
    ensures Examples(rows).y[k] == 0 <==> rows[k + 1].close <= rows[k].close
  {
    var target := Labelled(rows)[k + 1].target;
    assert Examples(rows).y[k] == target by {
      var df := Labelled(rows);
      var index := KeptIndices(df, HasPriceChange);
      assert index[k] == k + 1 by {
        SurvivingLabels(rows);
      }
      assert Examples(rows).y == Loc(ColumnOf(df, TargetOf), index);
    }
    assert (target == 0 || target == 1) && (target == 1 <==> rows[k].close < rows[k + 1].close) by {
      LabelledTarget(rows, k + 1);
    }
  }

  /**
   * No lookahead: example `k`, whose target is the move into row `k + 1`, takes its features
   * from row `k` alone. Two tables that agree on row `k` give it the same features, whatever
   * row `k + 1` and the later rows hold.
   */
  lemma FeaturesPrecedeTarget(rows: seq<FeatureRow>, other: seq<FeatureRow>, k: nat)
    requires k + 1 < |rows| && k + 1 < |other|
    requires rows[k] == other[k]
    ensures Examples(rows).X[k] == Examples(other).X[k]
  {
    ExampleFeatures(rows, k);
    ExampleFeatures(other, k);
  }

  /**
   * Through the whole pipeline, strictly rising closes give one example per row after row 49
   * except the last, each labelled 1.
   */
  lemma RisingPricesLabelAllUp(bars: seq<Bar>)
    requires forall i :: 1 <= i < |bars| ==> bars[i - 1].close < bars[i].close
    ensures |Examples(Preprocessed(bars)).y| == if LONG_WINDOW < |bars| then |bars| - LONG_WINDOW else 0
    ensures forall k :: 0 <= k < |Examples(Preprocessed(bars)).y| ==> Examples(Preprocessed(bars)).y[k] == 1
  {
    var rows := Preprocessed(bars);
    RisingPricesKeepEveryRowFrom49(bars);
    assert |rows| == if LONG_WINDOW <= |bars| then |bars| + 1 - LONG_WINDOW else 0;
    forall k | 0 <= k < |Examples(rows).y| ensures Examples(rows).y[k] == 1 {
      RisingPricesStayRising(bars, k);
      ExampleTarget(rows, k);
    }
  }

}
