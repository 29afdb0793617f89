/**
 * The indicator step of the pipeline (`preprocess_data`): moving averages of the close,
 * the 14-row RSI, and the removal of every row where an indicator is undefined.
 */
module Indicators {
  import opened Wrappers
  import opened Frames

  const SHORT_WINDOW: nat := 10
  const LONG_WINDOW: nat := 50
  const RSI_WINDOW: nat := 14

  /** One OHLCV row of the raw price table; the timestamp becomes the frame's index. */
  datatype Bar = Bar(timestamp: int, open: real, high: real, low: real, close: real, volume: real)

  /** A row of the frame after the indicator columns are assigned, before `dropna`. */
  datatype IndicatorRow = IndicatorRow(bar: Bar, ma10: Option<real>, ma50: Option<real>, rsi: Option<real>)

  /** A row of the preprocessed table: every indicator is defined. */
  datatype FeatureRow = FeatureRow(
    timestamp: int, open: real, high: real, low: real, close: real, volume: real,
    ma10: real, ma50: real, rsi: real)

  function BarClose(b: Bar): real
  {
    b.close
  }

  /** `df["close"]` of the raw price table. */
  function Closes(bars: seq<Bar>): seq<real>
  {
    ColumnOf(bars, BarClose)
  }

  /** `delta.where(delta > 0, 0)` at one row: a NaN delta fails the test and becomes 0. */
  function Gain(delta: Option<real>): (g: real)
    ensures 0.0 <= g
  {
    if delta.Some? && delta.value > 0.0 then delta.value else 0.0
  }

  /** `-delta.where(delta < 0, 0)` at one row: a NaN delta fails the test and becomes 0. */
  function Loss(delta: Option<real>): (l: real)
    ensures 0.0 <= l
  {
    -(if delta.Some? && delta.value < 0.0 then delta.value else 0.0)
  }

  /** Gain and loss split each close-to-close change into its rising and its falling part. */
  lemma GainLossSplitDelta(close: seq<real>, i: nat)
    requires i < |close|
    ensures 0.0 <= Gain(Diff(close, i)) && 0.0 <= Loss(Diff(close, i))
    ensures i == 0 ==> Gain(Diff(close, i)) == 0.0 && Loss(Diff(close, i)) == 0.0
    ensures i > 0 ==> close[i - 1] + Gain(Diff(close, i)) - Loss(Diff(close, i)) == close[i]
    ensures Gain(Diff(close, i)) == 0.0 || Loss(Diff(close, i)) == 0.0
  {
  }

  function Gains(close: seq<real>): (gains: seq<real>)
    ensures |gains| == |close|
    ensures forall i {:trigger gains[i]} :: 0 <= i < |close| ==> gains[i] == Gain(Diff(close, i))
  {
    seq(|close|, i requires 0 <= i < |close| => Gain(Diff(close, i)))
  }

  function Losses(close: seq<real>): (losses: seq<real>)
    ensures |losses| == |close|
    ensures forall i {:trigger losses[i]} :: 0 <= i < |close| ==> losses[i] == Loss(Diff(close, i))
  {
    seq(|close|, i requires 0 <= i < |close| => Loss(Diff(close, i)))
  }

  /**
   * `100 - 100 / (1 + gain / loss)` with pandas' division: a positive gain over a zero loss is
   * +inf, which makes the RSI exactly 100; zero over zero is NaN. The contract gives the value in
   * the closed form 100 * gain / (gain + loss).
   */
  function RsiOf(gain: real, loss: real): (r: Option<real>)
    requires 0.0 <= gain && 0.0 <= loss
    ensures r.Some? <==> 0.0 < gain + loss
    ensures r.Some? ==> r.value == 100.0 * gain / (gain + loss)
  {
    if loss > 0.0 then
      var rs := gain / loss;
      var r := 100.0 - 100.0 / (1.0 + rs);
      assert r == 100.0 * gain / (gain + loss) by {
        assert rs * loss == gain;
        assert (1.0 + rs) * loss == gain + loss;
        assert 100.0 / (1.0 + rs) == 100.0 * loss / (gain + loss);
      }
      Some(r)
    else if gain > 0.0 then
      Some(100.0 - 0.0)  // gain / 0 is +inf and 100 / (1 + inf) is 0
    else
      None                // 0 / 0 is NaN
  }

  /** The RSI is a percentage, below 100 exactly when the window holds some loss. */
  lemma RsiBounds(gain: real, loss: real)
    requires 0.0 <= gain && 0.0 <= loss
    ensures RsiOf(gain, loss).Some? ==> 0.0 <= RsiOf(gain, loss).value <= 100.0
    ensures RsiOf(gain, loss).Some? ==> (RsiOf(gain, loss).value < 100.0 <==> 0.0 < loss)
    ensures RsiOf(gain, loss).Some? ==> (RsiOf(gain, loss).value == 0.0 <==> gain == 0.0)
  {
    if 0.0 < gain + loss {
      var r := RsiOf(gain, loss).value;
      assert r * (gain + loss) == 100.0 * gain;
    }
  }

  /** The RSI column at row `i`: NaN until 14 gains and losses exist, and where both means are 0. */
  function RsiAt(close: seq<real>, i: nat): (r: Option<real>)
    requires i < |close|
    ensures r.Some? ==> RSI_WINDOW <= i + 1 && 0.0 <= r.value <= 100.0
  {
    var gain := RollingMean(Gains(close), RSI_WINDOW, i);
    var loss := RollingMean(Losses(close), RSI_WINDOW, i);
    if gain.None? || loss.None? then None
    else
      RollingMeanNonNegative(Gains(close), RSI_WINDOW, i);
      RollingMeanNonNegative(Losses(close), RSI_WINDOW, i);
      RsiBounds(gain.value, loss.value);
      RsiOf(gain.value, loss.value)
  }

  /**
   * Some close within the 14 rows ending at `i` differs from the close of the row before it
   * (the first row has no row before it, so it never counts as a move).
   */
  predicate ClosesMove(close: seq<real>, i: nat)
    requires i < |close|
  {
    exists t :: i + 1 - RSI_WINDOW <= t <= i && 1 <= t && close[t - 1] != close[t]
  }

  /** A row has neither a gain nor a loss exactly when its close equals the previous one (or it is the first row). */
  lemma StillRowIff(close: seq<real>, t: nat)
    requires t < |close|
    ensures Gains(close)[t] == 0.0 && Losses(close)[t] == 0.0 <==> t == 0 || close[t - 1] == close[t]
  {
    GainLossSplitDelta(close, t);
  }

  /** The mean gain plus the mean loss over 14 rows is 0 exactly when every row of the window has neither. */
  lemma WindowMeansZeroIff(close: seq<real>, i: nat)
    requires RSI_WINDOW <= i + 1 && i < |close|
    ensures RollingMean(Gains(close), RSI_WINDOW, i).value + RollingMean(Losses(close), RSI_WINDOW, i).value == 0.0
      <==> forall t :: i + 1 - RSI_WINDOW <= t <= i ==> Gains(close)[t] == 0.0 && Losses(close)[t] == 0.0
  {
    var gains, losses := Gains(close), Losses(close);
    RollingMeanNonNegative(gains, RSI_WINDOW, i);
    RollingMeanNonNegative(losses, RSI_WINDOW, i);
    RollingMeanZeroIff(gains, RSI_WINDOW, i);
    RollingMeanZeroIff(losses, RSI_WINDOW, i);
  }

  /** Over the 14 rows ending at `i`, the mean gain and the mean loss are both 0 exactly when no close moves. */
  lemma NoMoveIff(close: seq<real>, i: nat)
    requires RSI_WINDOW <= i + 1 && i < |close|
    ensures RollingMean(Gains(close), RSI_WINDOW, i).value + RollingMean(Losses(close), RSI_WINDOW, i).value == 0.0
      <==> !ClosesMove(close, i)
  {
    WindowMeansZeroIff(close, i);
    forall t | i + 1 - RSI_WINDOW <= t <= i
      ensures Gains(close)[t] == 0.0 && Losses(close)[t] == 0.0 <==> t == 0 || close[t - 1] == close[t]
    {
      StillRowIff(close, t);
    }
  }

  /** The RSI is defined exactly from row 13 on, except where the window has neither a gain nor a loss. */
  lemma RsiDefinedIff(close: seq<real>, i: nat)
    requires i < |close|
    ensures RsiAt(close, i).Some? <==>
      RSI_WINDOW <= i + 1 && ClosesMove(close, i)
  {
    if RSI_WINDOW <= i + 1 {
      var g := RollingMean(Gains(close), RSI_WINDOW, i).value;
      var l := RollingMean(Losses(close), RSI_WINDOW, i).value;
      assert 0.0 <= g && 0.0 <= l by {
        RollingMeanNonNegative(Gains(close), RSI_WINDOW, i);
        RollingMeanNonNegative(Losses(close), RSI_WINDOW, i);
      }
      assert RsiAt(close, i) == RsiOf(g, l);
      assert g + l == 0.0 <==> !ClosesMove(close, i) by {
        NoMoveIff(close, i);
      }
    }
  }

  /** Over 14 strictly rising closes ending at row `i` the mean loss is 0. */
  lemma RisingWindowNoLoss(close: seq<real>, i: nat)
    requires RSI_WINDOW <= i + 1 && i < |close|
    requires forall t :: i + 1 - RSI_WINDOW <= t <= i && 1 <= t ==> close[t - 1] < close[t]
    ensures RollingMean(Losses(close), RSI_WINDOW, i).value == 0.0
  {
    var losses := Losses(close);
    forall t | i + 1 - RSI_WINDOW <= t <= i ensures losses[t] == 0.0 {
      GainLossSplitDelta(close, t);
    }
    RollingMeanZeroIff(losses, RSI_WINDOW, i);
  }

  /** Over 14 strictly rising closes ending at row `i` the mean gain is positive. */
  lemma RisingWindowGain(close: seq<real>, i: nat)
    requires RSI_WINDOW <= i + 1 && i < |close|
    requires forall t :: i + 1 - RSI_WINDOW <= t <= i && 1 <= t ==> close[t - 1] < close[t]
    ensures 0.0 < RollingMean(Gains(close), RSI_WINDOW, i).value
  {
    var gains := Gains(close);
    forall t | i + 1 - RSI_WINDOW <= t <= i ensures 0.0 <= gains[t] {
      GainLossSplitDelta(close, t);
    }
    var last := i;
    assert 0.0 < gains[last] by {
      GainLossSplitDelta(close, last);
    }
    RollingMeanNonNegative(gains, RSI_WINDOW, i);
    RollingMeanZeroIff(gains, RSI_WINDOW, i);
  }

  /** Fourteen strictly rising closes ending at row `i` give an RSI of exactly 100. */
  lemma RisingWindowRsi(close: seq<real>, i: nat)
    requires RSI_WINDOW <= i + 1 && i < |close|
    requires forall t :: i + 1 - RSI_WINDOW <= t <= i && 1 <= t ==> close[t - 1] < close[t]
    ensures RsiAt(close, i) == Some(100.0)
  {
    var g := RollingMean(Gains(close), RSI_WINDOW, i).value;
    var l := RollingMean(Losses(close), RSI_WINDOW, i).value;
    RisingWindowNoLoss(close, i);
    RisingWindowGain(close, i);
    assert RsiAt(close, i) == RsiOf(g, l);
  }

  /** The frame after the column assignments: the bar, MA_10, MA_50 and RSI of every row. */
  function WithIndicators(bars: seq<Bar>): (frame: seq<IndicatorRow>)
    ensures |frame| == |bars|
    ensures forall i {:trigger frame[i]} :: 0 <= i < |bars| ==> frame[i].bar == bars[i]
  {
    var close := Closes(bars);
    seq(|bars|, i requires 0 <= i < |bars| =>
      IndicatorRow(bars[i], RollingMean(close, SHORT_WINDOW, i), RollingMean(close, LONG_WINDOW, i), RsiAt(close, i)))
  }

  predicate IsComplete(row: IndicatorRow)
  {
    row.ma10.Some? && row.ma50.Some? && row.rsi.Some?
  }

  function ToFeatureRow(row: IndicatorRow): (f: FeatureRow)
    requires IsComplete(row)
  {
    FeatureRow(row.bar.timestamp, row.bar.open, row.bar.high, row.bar.low, row.bar.close, row.bar.volume,
               row.ma10.value, row.ma50.value, row.rsi.value)
  }

  /** Positions of the input rows that survive `dropna`. */
  function SurvivingRows(bars: seq<Bar>): (index: seq<nat>)
    ensures forall k :: 0 <= k < |index| ==> index[k] < |bars|
    ensures forall k, l :: 0 <= k < l < |index| ==> index[k] < index[l]
  {
    KeptIndices(WithIndicators(bars), IsComplete)
  }

  /** What `preprocess_data` returns, row by row. */
  function Preprocessed(bars: seq<Bar>): (rows: seq<FeatureRow>)
    ensures |rows| == |SurvivingRows(bars)|
  {
    var frame := WithIndicators(bars);
    var index := KeptIndices(frame, IsComplete);
    seq(|index|, k requires 0 <= k < |index| => ToFeatureRow(frame[index[k]]))
  }

  /**
   * `preprocess_data`: assigns the MA_10, MA_50 and RSI columns one after the other, then
   * drops the incomplete rows in place.
   */
  method PreprocessData(bars: seq<Bar>) returns (rows: seq<FeatureRow>)
    ensures rows == Preprocessed(bars)
  {
    var close := Closes(bars);
    var ma10 := seq(|bars|, i requires 0 <= i < |bars| => RollingMean(close, SHORT_WINDOW, i));
    var ma50 := seq(|bars|, i requires 0 <= i < |bars| => RollingMean(close, LONG_WINDOW, i));
    var rsi := seq(|bars|, i requires 0 <= i < |bars| => RsiAt(close, i));
    var frame := seq(|bars|, i requires 0 <= i < |bars| => IndicatorRow(bars[i], ma10[i], ma50[i], rsi[i]));
    assert frame == WithIndicators(bars);
    var index := DropNa(frame, IsComplete);
    rows := seq(|index|, k requires 0 <= k < |index| => ToFeatureRow(frame[index[k]]));
  }

  /** A row survives exactly when the 50-row warm-up is over and its RSI window is not flat. */
  lemma SurvivingRowsIff(bars: seq<Bar>, j: nat)
    ensures j in SurvivingRows(bars) <==> LONG_WINDOW <= j + 1 && j < |bars| && ClosesMove(Closes(bars), j)
  {
    var frame := WithIndicators(bars);
    var index := SurvivingRows(bars);
    if j < |bars| {
      var close := Closes(bars);
      RsiDefinedIff(close, j);
      assert IsComplete(frame[j]) <==> LONG_WINDOW <= j + 1 && RsiAt(close, j).Some?;
      if j in index {
        var k :| 0 <= k < |index| && index[k] == j;
      } else if IsComplete(frame[j]) {
        KeptIndicesComplete(frame, IsComplete, j);
      }
    }
  }

  /** Output row `k` is the surviving frame row it was taken from. */
  lemma SurvivorAt(bars: seq<Bar>, k: nat)
    requires k < |Preprocessed(bars)|
    ensures SurvivingRows(bars)[k] < |bars|
    ensures IsComplete(WithIndicators(bars)[SurvivingRows(bars)[k]])
    ensures Preprocessed(bars)[k] == ToFeatureRow(WithIndicators(bars)[SurvivingRows(bars)[k]])
  {
  }

  /** Frame row `j` holds bar `j` with the MA_10, MA_50 and RSI values computed at row `j`. */
  lemma IndicatorsAt(bars: seq<Bar>, j: nat)
    requires j < |bars|
    ensures WithIndicators(bars)[j] == IndicatorRow(bars[j], RollingMean(Closes(bars), SHORT_WINDOW, j),
      RollingMean(Closes(bars), LONG_WINDOW, j), RsiAt(Closes(bars), j))
  {
  }

  /**
   * Row `k` of the output is input row `SurvivingRows(bars)[k]`, at or after row 49, with its
   * timestamp and OHLCV values unchanged, MA_10 and MA_50 the means of the 10 and 50 closes
   * ending there, and RSI the value of the 14-row formula there.
   */
  lemma PreprocessedRow(bars: seq<Bar>, k: nat)
    requires k < |Preprocessed(bars)|
    ensures var j := SurvivingRows(bars)[k]; var row := Preprocessed(bars)[k];
      && LONG_WINDOW <= j + 1
      && row.timestamp == bars[j].timestamp && row.open == bars[j].open && row.high == bars[j].high
      && row.low == bars[j].low && row.close == bars[j].close && row.volume == bars[j].volume
      && row.ma10 == Sum(Closes(bars)[j + 1 - SHORT_WINDOW .. j + 1]) / SHORT_WINDOW as real
      && row.ma50 == Sum(Closes(bars)[j + 1 - LONG_WINDOW .. j + 1]) / LONG_WINDOW as real
      && RsiAt(Closes(bars), j) == Some(row.rsi)
  {
    var j := SurvivingRows(bars)[k];
    SurvivorAt(bars, k);
    IndicatorsAt(bars, j);
  }

  /** Fewer than 50 input rows leave nothing after the warm-up. */
  lemma ShortInputYieldsNothing(bars: seq<Bar>)
    requires |bars| < LONG_WINDOW
    ensures Preprocessed(bars) == []
  {
    if Preprocessed(bars) != [] {
      PreprocessedRow(bars, 0);
    }
  }

  /** With an unchanging close every RSI window is 0 / 0, so every row is dropped. */
  lemma FlatPricesYieldNoRows(bars: seq<Bar>)
    requires forall i :: 0 <= i < |bars| ==> bars[i].close == bars[0].close
    ensures Preprocessed(bars) == []
  {
    if Preprocessed(bars) != [] {
      var j := SurvivingRows(bars)[0];
      assert j in SurvivingRows(bars);
      SurvivingRowsIff(bars, j);
    }
  }

  /** With strictly rising closes a row is complete exactly from row 49 on. */
  lemma RisingPricesCompleteFrom49(bars: seq<Bar>, j: nat)
    requires forall i :: 1 <= i < |bars| ==> bars[i - 1].close < bars[i].close
    requires j < |bars|
    ensures IsComplete(WithIndicators(bars)[j]) <==> LONG_WINDOW - 1 <= j
  {
    if LONG_WINDOW - 1 <= j {
      RisingWindowRsi(Closes(bars), j);
    }
  }

  /** With strictly rising closes every output row carries an RSI of exactly 100. */
  lemma RisingPricesRsi100(bars: seq<Bar>, k: nat)
    requires forall i :: 1 <= i < |bars| ==> bars[i - 1].close < bars[i].close
    requires k < |Preprocessed(bars)|
    ensures Preprocessed(bars)[k].rsi == 100.0
  {
    PreprocessedRow(bars, k);
    RisingWindowRsi(Closes(bars), SurvivingRows(bars)[k]);
  }

  /**
   * With strictly rising closes every row from 49 on survives, in order, and carries an RSI
   * of exactly 100.
   */
  lemma RisingPricesKeepEveryRowFrom49(bars: seq<Bar>)
    requires forall i :: 1 <= i < |bars| ==> bars[i - 1].close < bars[i].close
    ensures SurvivingRows(bars) == seq(if LONG_WINDOW <= |bars| then |bars| + 1 - LONG_WINDOW else 0, k => LONG_WINDOW - 1 + k)
    ensures forall k :: 0 <= k < |Preprocessed(bars)| ==> Preprocessed(bars)[k].rsi == 100.0
  {
    var frame := WithIndicators(bars);
    forall j | 0 <= j < |frame| ensures IsComplete(frame[j]) <==> LONG_WINDOW - 1 <= j {
      RisingPricesCompleteFrom49(bars, j);
    }
    KeptIndicesFrom(frame, IsComplete, LONG_WINDOW - 1);
    forall k | 0 <= k < |Preprocessed(bars)| ensures Preprocessed(bars)[k].rsi == 100.0 {
      RisingPricesRsi100(bars, k);
    }
  }

  /** With strictly rising closes the output closes keep rising from one row to the next. */
  lemma RisingPricesStayRising(bars: seq<Bar>, k: nat)
    requires forall i :: 1 <= i < |bars| ==> bars[i - 1].close < bars[i].close
    requires k + 1 < |Preprocessed(bars)|
    ensures Preprocessed(bars)[k].close < Preprocessed(bars)[k + 1].close
  {
    var index := SurvivingRows(bars);
    RisingPricesKeepEveryRowFrom49(bars);
    assert index[k + 1] == index[k] + 1;
    PreprocessedRow(bars, k);
    PreprocessedRow(bars, k + 1);
  }

  /** Increasing timestamps stay increasing: the output is an ordered selection of the input rows. */
  lemma TimestampsStayIncreasing(bars: seq<Bar>)
    requires forall i, j :: 0 <= i < j < |bars| ==> bars[i].timestamp < bars[j].timestamp
    ensures forall k, l :: 0 <= k < l < |Preprocessed(bars)| ==>
      Preprocessed(bars)[k].timestamp < Preprocessed(bars)[l].timestamp
  {
    forall k, l | 0 <= k < l < |Preprocessed(bars)|
      ensures Preprocessed(bars)[k].timestamp < Preprocessed(bars)[l].timestamp
    {
      PreprocessedRow(bars, k);
      PreprocessedRow(bars, l);
    }
  }
}
