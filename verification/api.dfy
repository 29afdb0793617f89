/**
 * The prediction endpoint: one snapshot of feature values in, one `{"prediction": ...}` or
 * `{"error": ...}` response out. The classifier loaded at start-up is a parameter.
 */
module Api {
  import opened Wrappers
  import opened Indicators
  import Training

  /** The request body, its fields in declaration order. */
  datatype PriceData = PriceData(
    open: real, high: real, low: real, close: real, volume: real,
    MA_10: real, MA_50: real, RSI: real)

  /** The field names of `PriceData`, in declaration order. */
  const FIELDS: seq<string> := ["open", "high", "low", "close", "volume", "MA_10", "MA_50", "RSI"]

  /** `data.dict()`: each field value under its field name. */
  function AsDict(data: PriceData): (d: map<string, real>)
    ensures forall name :: name in d <==> name in FIELDS
  {
    map["open" := data.open, "high" := data.high, "low" := data.low, "close" := data.close,
        "volume" := data.volume, "MA_10" := data.MA_10, "MA_50" := data.MA_50, "RSI" := data.RSI]
  }

  /**
   * `pd.DataFrame([data.dict()])`: the single input row, its columns taken from the
   * dictionary in field declaration order.
   */
  function InputRow(data: PriceData): (row: seq<real>)
    ensures row == [data.open, data.high, data.low, data.close, data.volume, data.MA_10, data.MA_50, data.RSI]
  {
    var d := AsDict(data);
    seq(|FIELDS|, k requires 0 <= k < |FIELDS| => d[FIELDS[k]])
  }

  /** What the classifier's `predict` does with one row: returns a class, or raises. */
  datatype Outcome = Returned(value: int) | Raised(message: string)

  /** The response body. */
  datatype Response = Prediction(direction: string) | Error(message: string)

  /** `"Up" if prediction == 1 else "Down"`. */
  function PredictionLabel(prediction: int): (direction: string)
    ensures direction == "Up" || direction == "Down"
    ensures direction == "Up" <==> prediction == 1
  {
    if prediction == 1 then "Up" else "Down"
  }

  /**
   * `predict_price`: runs the classifier on the input row; a returned class becomes an Up or
   * Down prediction and a raised exception becomes an error response carrying its message.
   */
  function PredictPrice(data: PriceData, model: seq<real> -> Outcome): (r: Response)
    ensures r == Prediction("Up") || r == Prediction("Down") || r.Error?
    ensures r == Prediction("Up") <==> model(InputRow(data)) == Returned(1)
    ensures r.Error? <==> model(InputRow(data)).Raised?
    ensures r.Error? ==> r.message == model(InputRow(data)).message
  {
    match model(InputRow(data))
    case Returned(prediction) => Prediction(PredictionLabel(prediction))
    case Raised(message) => Error(message)
  }

  /** The snapshot a client sends for one row of the preprocessed table. */
  function SnapshotOf(row: FeatureRow): PriceData
  {
    PriceData(row.open, row.high, row.low, row.close, row.volume, row.ma10, row.ma50, row.rsi)
  }

  /**
   * Train/serve parity: the request fields are the training feature columns, in the same
   * order, so the row built for a snapshot of a table row is that row's training feature vector.
   */
  lemma ServingRowMatchesTraining(row: FeatureRow)
    ensures FIELDS == Training.FEATURES
    ensures InputRow(SnapshotOf(row)) == Training.FeatureVector(row)
    ensures forall k :: 0 <= k < |FIELDS| ==>
      Training.Column(row, FIELDS[k]) == Some(InputRow(SnapshotOf(row))[k])
  {
    Training.FeatureVectorColumns(row);
  }

  /**
   * The response depends only on the request and on what the loaded classifier answers for
   * its row: the handler keeps no other state.
   */
  lemma ResponseDependsOnlyOnRow(data: PriceData, model: seq<real> -> Outcome, other: seq<real> -> Outcome)
    requires model(InputRow(data)) == other(InputRow(data))
    ensures PredictPrice(data, model) == PredictPrice(data, other)
  {
  }
}
