# Crypto price predictor: feature and label pipeline, in Dafny

This project models the checkable core of a small cryptocurrency direction predictor. The
pipeline has three steps:

- **Indicators** (`preprocess_data`). An ordered table of OHLCV bars gets three new
  columns: the 10-row and 50-row moving averages of the close (`MA_10`, `MA_50`) and a
  14-row RSI. Every row where one of them is undefined is then dropped.
- **Training examples** (the training script). Each row gets the target "the close rose
  strictly since the previous row". The feature columns are shifted down one row. After
  `dropna`, `X` and `y` are realigned on the surviving row labels.
- **Prediction endpoint** (`predict_price`). One snapshot of the eight feature values goes
  in. The response is `{"prediction": "Up"}`, `{"prediction": "Down"}` or
  `{"error": message}`.

Modules, one per source file plus shared pieces:

- `Wrappers` (`wrappers.dfy`): `Option`, used as "value or NaN".
- `Frames` (`frames.dfy`): the pandas operations the pipeline uses. These are window sums
  and `rolling(w).mean()`, `diff(1)`, `shift(1)`, `loc[...]`, and `dropna`. `DropNa` is a
  loop that walks the frame row by row. It is proved equal to the specification function
  `KeptIndices`.
- `Indicators` (`indicators.dfy`): `preprocess.py`. `PreprocessData` mirrors the column
  assignments and the in-place `dropna`. It is proved equal to `Preprocessed`, and the
  lemmas are about that function.
- `Training` (`training.dfy`): `train_model.py`. `BuildTrainingSet` mirrors the script's
  steps. It is proved equal to `Examples`, and the lemmas are about that function.
- `Api` (`api.dfy`): `api.py`. The classifier loaded at start-up becomes the parameter
  `model`. It is a function from the input row to either a returned class or a raised
  exception.

Prices are `real`. A NaN is `None`. pandas' division is written out:

- a positive gain over a zero loss is +inf, which gives an RSI of exactly 100;
- zero over zero is NaN, so the RSI is undefined and the row is dropped.

The RSI is specified through the equivalent closed form 100·gain/(gain+loss). Both special
cases follow from that form.

Behaviour of the code worth knowing:

- A 14-row window in which no close changes divides 0 by 0. The RSI is undefined there and
  the row is dropped; it is not 100. With an unchanging close every row is dropped
  (`FlatPricesYieldNoRows`).
- Example k pairs the features of row k with the move from row k to row k+1. The script
  gets there by shifting the features down one row and realigning them on the labels that
  survive `dropna` (`ExampleFeatures`, `ExampleTarget`).
- `preprocess_data` does not check the size of its input. Fewer than 50 rows give an empty
  table (`ShortInputYieldsNothing`), and a table of 0 or 1 rows gives no training examples
  (`Examples`). With too few examples the script then fails inside `train_test_split`
  (train_model.py:34), which is not part of this model.
- Request bodies are validated by pydantic against `PriceData` (api.py:17-25). A body with
  a missing or non-numeric field is rejected before `predict_price` runs. That validation is
  not part of this model: a request is a `PriceData` value with all eight fields.

## Model

| member | source | states |
|---|---|---|
| Frames.RollingMean | preprocess.py:23-24 | a rolling mean is defined exactly once `window` rows exist up to and including the row (warm-up) |
| Frames.RollingMeanWithin | preprocess.py:23-24 | a moving average lies between any lower and upper bound of the closes in its window |
| Frames.RollingMeanNonNegative | preprocess.py:28-29 | the rolling mean of a non-negative column is non-negative |
| Frames.RollingMeanZeroIff | preprocess.py:28-29 | over non-negative values the rolling mean is 0 exactly when every value in the window is 0 |
| Frames.SumZeroIff | preprocess.py:28-29 | a window sum of non-negative values is 0 exactly when every value is 0 |
| Frames.ColumnOf | preprocess.py:23 | a column read from a table has one value per row, the value of that row's field, in row order |
| Frames.Diff | preprocess.py:27 | `diff(1)` is NaN on the first row only, and elsewhere the previous value plus the change gives the current value |
| Frames.Shift | train_model.py:19 | `shift(1)` keeps the length, makes row 0 NaN and gives every later row the previous row's value |
| Frames.Loc | train_model.py:27 | `loc[index]` returns, in the order listed, the row at each listed label |
| Frames.KeptIndices | preprocess.py:34 | `dropna` keeps only labels of complete rows, in range, strictly increasing |
| Frames.KeptIndicesComplete | train_model.py:26 | `dropna` never drops a complete row |
| Frames.KeptIndicesFrom | train_model.py:26 | when rows are complete exactly from row `first` on, `dropna` keeps exactly the labels `first`, `first + 1`, ... |
| Frames.DropNa | preprocess.py:34 | the in-place row-by-row removal returns exactly the labels `KeptIndices` describes |
| Indicators.Gain | preprocess.py:28 | the gain column is never negative, including the first row, whose NaN delta becomes 0 |
| Indicators.Loss | preprocess.py:29 | the loss column is never negative, including the first row, whose NaN delta becomes 0 |
| Indicators.GainLossSplitDelta | preprocess.py:27-29 | gain and loss are max(delta, 0) and max(-delta, 0): both are 0 on the first row; otherwise the previous close plus gain minus loss is the close, and at most one of them is non-zero |
| Indicators.StillRowIff | preprocess.py:27-29 | a row has zero gain and zero loss exactly when it is the first row or its close equals the previous close |
| Indicators.WindowMeansZeroIff | preprocess.py:28-29 | the 14-row mean gain plus mean loss is 0 exactly when every row of the window has zero gain and zero loss |
| Indicators.RsiOf | preprocess.py:30-31 | `100 - 100/(1 + gain/loss)` under pandas division is defined exactly when gain + loss > 0, and then equals 100·gain/(gain+loss): 100 for zero loss and positive gain, NaN for 0/0 |
| Indicators.RsiBounds | preprocess.py:30-31 | a defined RSI lies in [0, 100], is below 100 exactly when the mean loss is positive, and is 0 exactly when the mean gain is 0 |
| Indicators.RsiAt | preprocess.py:27-31 | the RSI column is undefined before row 13 and lies in [0, 100] where defined |
| Indicators.NoMoveIff | preprocess.py:27-29 | the 14-row mean gain plus mean loss is 0 exactly when no close in the window differs from the one before it |
| Indicators.RsiDefinedIff | preprocess.py:27-31 | the RSI at row i is defined exactly when i ≥ 13 and some close in its 14-row window differs from the previous close |
| Indicators.RisingWindowNoLoss | preprocess.py:29 | over 14 strictly rising closes the mean loss is 0 |
| Indicators.RisingWindowGain | preprocess.py:28 | over 14 strictly rising closes the mean gain is positive |
| Indicators.RisingWindowRsi | preprocess.py:28-31 | 14 strictly rising deltas ending at row i give an RSI of exactly 100 |
| Indicators.WithIndicators | preprocess.py:23-31 | assigning the indicator columns keeps every input row, with its bar unchanged |
| Indicators.SurvivingRows | preprocess.py:34 | the labels that survive `dropna` are input positions, in strictly increasing order |
| Indicators.Preprocessed | preprocess.py:15-36 | the output has one row per surviving label |
| Indicators.PreprocessData | preprocess.py:15-36 | the column assignments followed by the in-place `dropna` produce exactly `Preprocessed(bars)` |
| Indicators.SurvivingRowsIff | preprocess.py:23-34 | input row j survives exactly when j ≥ 49 and its 14-row RSI window holds some close change |
| Indicators.PreprocessedRow | preprocess.py:17-34 | output row k is input row j = SurvivingRows[k] with j ≥ 49, its timestamp and OHLCV unchanged, MA_10 and MA_50 the means of the 10 and 50 closes ending at j, and RSI the 14-row RSI at j |
| Indicators.ShortInputYieldsNothing | preprocess.py:23-34 | fewer than 50 input rows give an empty output |
| Indicators.FlatPricesYieldNoRows | preprocess.py:28-34 | a constant close gives an empty output, because every RSI is 0/0 |
| Indicators.RisingPricesCompleteFrom49 | preprocess.py:23-31 | with strictly rising closes, frame row j has every indicator defined exactly when j ≥ 49 |
| Indicators.RisingPricesRsi100 | preprocess.py:27-31 | with strictly rising closes, every output row has RSI 100 |
| Indicators.RisingPricesKeepEveryRowFrom49 | preprocess.py:23-34 | with strictly rising closes, exactly the rows 49, 50, ... survive, in order, each with RSI 100 |
| Indicators.RisingPricesStayRising | preprocess.py:23-34 | with strictly rising closes, consecutive output rows have strictly rising closes |
| Indicators.TimestampsStayIncreasing | preprocess.py:17-34 | strictly increasing input timestamps stay strictly increasing in the output |
| Training.FeatureVector | train_model.py:16-19 | a feature vector always has exactly 8 values |
| Training.FeatureVectorColumns | train_model.py:16-19 | value k of the feature vector is the column named `FEATURES[k]`: open, high, low, close, volume, MA_10, MA_50, RSI |
| Training.Target | train_model.py:13 | the target is 0 or 1, and it is 1 exactly when the change is defined and strictly positive |
| Training.Labelled | train_model.py:12-13 | assigning Price_Change and Target keeps every row, and Price_Change is NaN on row 0 only |
| Training.LabelledTarget | train_model.py:12-13 | the target of row i is 1 exactly when i ≥ 1 and close[i-1] < close[i]; an equal or lower close gives 0 |
| Training.Examples | train_model.py:11-28 | X and y have the same length: one fewer than the rows, or 0 for an empty table |
| Training.BuildTrainingSet | train_model.py:11-28 | the script's assignments, shift, in-place `dropna` and `loc` realignment produce exactly `Examples(rows)` |
| Training.SurvivingLabels | train_model.py:26 | `dropna` on the labelled table keeps every row label except 0 |
| Training.ExampleFeatures | train_model.py:19-27 | example k holds the (defined) feature vector of row k |
| Training.ExampleTarget | train_model.py:12-28 | example k is labelled 1 exactly when close[k] < close[k+1], and 0 exactly when close[k+1] ≤ close[k] |
| Training.FeaturesPrecedeTarget | train_model.py:19-27 | no lookahead: example k, whose target is the move into row k+1, gets the same features from any two tables that agree on row k, whatever the later rows hold |
| Training.RisingPricesLabelAllUp | train_model.py:12-28 | over the whole pipeline, strictly rising closes give max(n - 50, 0) examples, every one labelled 1 |
| Api.AsDict | api.py:17-32 | the request dictionary has exactly the eight `PriceData` field names as keys |
| Api.InputRow | api.py:32 | the single input row lists the fields in `PriceData` declaration order |
| Api.PredictionLabel | api.py:36 | the label is "Up" or "Down", and it is "Up" exactly when the model output equals 1 |
| Api.PredictPrice | api.py:29-41 | the response is Up, Down or an error. It is Up exactly when the model returns 1. It is an error exactly when the model raises, and then carries the exception's message |
| Api.ServingRowMatchesTraining | api.py:17-32 | the request field names are the training feature names in the same order, so serving a table row builds that row's training feature vector |
| Api.ResponseDependsOnlyOnRow | api.py:29-41 | the response depends only on the request and on the loaded model's answer for its row |

## Left out

- File and serialisation I/O is not modelled. This covers `load_data`, the CSV reads and
  writes, and pickling the model. The CSV round trip between preprocessing and training is
  taken as the identity on values.
- Timestamp parsing (`pd.to_datetime`) is left out: a timestamp is an integer. The caller's
  frame is mutated by `set_index(inplace=True)`; the model returns new rows instead.
- `astype(float)` is left out: raw OHLCV values are reals, so a NaN in the raw table is not
  modelled. `dropna` can therefore drop a row only for an undefined indicator.
- Floating point is not modelled: rounding, the running-sum algorithm pandas uses for rolling
  means, and signed zero. Values are exact reals; NaN and +inf appear only as the case splits
  described above.
- Library behaviour is opaque: `train_test_split` and its seeded shuffle, the random forest's
  `fit` and `predict`, and `accuracy_score`. The classifier is the parameter `model`. No
  accuracy figure is modelled. The error `train_test_split` raises when there are too few
  examples to split is not modelled either.
- The web framework is left out: routing, the `home` route, and the pydantic validation of
  request bodies against `PriceData`, which answers a malformed body with a validation error
  before `predict_price` runs. In the model only the classifier call can raise. An exception
  from building the DataFrame would produce the same error response.
- The model output is an integer class. Comparing a non-integer output with 1 is not modelled.
- The Streamlit dashboard, the HTTP price fetch with its retry loop, and the configuration
  constants are left out: they are I/O and UI.
- Indicators.RsiOf: requires a non-negative mean gain and mean loss. Those are the only
  values the gain and loss columns can produce (`Indicators.Gain`, `Indicators.Loss`,
  `Frames.RollingMeanNonNegative`), so no reachable case is excluded.
- The second assignment of `Price_Change` and `Target` (train_model.py:22-23) is modelled
  in `Training.BuildTrainingSet` as a second assignment. It recomputes the same function of
  the unchanged close column, so it changes nothing. No separate lemma states this.
