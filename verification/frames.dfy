/**
 * The pandas operations the pipeline relies on, stated over columns of reals.
 * A column that may hold NaN is a `seq<Option<real>>`; a fully defined one is a `seq<real>`.
 * The index of a frame is the position of a row, as in a frame read from a flat file.
 */
module Frames {
  import opened Wrappers

  /** Sum of a window of values. */
  function Sum(s: seq<real>): real
  {
    if s == [] then 0.0 else s[0] + Sum(s[1..])
  }

  lemma {:induction false} SumAtLeast(s: seq<real>, lo: real)
    requires forall k :: 0 <= k < |s| ==> lo <= s[k]
    ensures lo * |s| as real <= Sum(s)
  {
    if s != [] {
      SumAtLeast(s[1..], lo);
      assert lo * |s| as real == lo + lo * |s[1..]| as real;
    }
  }

  lemma {:induction false} SumAtMost(s: seq<real>, hi: real)
    requires forall k :: 0 <= k < |s| ==> s[k] <= hi
    ensures Sum(s) <= hi * |s| as real
  {
    if s != [] {
      SumAtMost(s[1..], hi);
      assert hi * |s| as real == hi + hi * |s[1..]| as real;
    }
  }

  /** A sum of non-negative values is zero exactly when every value is zero. */
  lemma {:induction false} SumZeroIff(s: seq<real>)
    requires forall k :: 0 <= k < |s| ==> 0.0 <= s[k]
    ensures Sum(s) == 0.0 <==> forall k :: 0 <= k < |s| ==> s[k] == 0.0
  {
    if s != [] {
      SumZeroIff(s[1..]);
      SumAtLeast(s[1..], 0.0);
      if Sum(s) == 0.0 {
        forall k | 0 <= k < |s| ensures s[k] == 0.0 {
          if k > 0 { assert s[k] == s[1..][k - 1]; }
        }
      }
    }
  }

  /**
   * Position `i` of `rolling(window).mean()` over a fully defined column: undefined (NaN)
   * until `window` values exist, then the mean of the `window` values ending at `i`.
   */
  function RollingMean(xs: seq<real>, window: nat, i: nat): (m: Option<real>)
    requires 0 < window && i < |xs|
    ensures m.Some? <==> window <= i + 1
  {
    if i + 1 < window then None else Some(Sum(xs[i + 1 - window .. i + 1]) / window as real)
  }

  /** Dividing by a positive count keeps bounds that hold per element of the total. */
  lemma MeanWithin(total: real, n: real, lo: real, hi: real)
    requires 0.0 < n && lo * n <= total <= hi * n
    ensures lo <= total / n <= hi
  {
  }

  /** A rolling mean lies between any bounds of the window it averages. */
  lemma RollingMeanWithin(xs: seq<real>, window: nat, i: nat, lo: real, hi: real)
    requires 0 < window <= i + 1 && i < |xs|
    requires forall t :: i + 1 - window <= t <= i ==> lo <= xs[t] <= hi
    ensures lo <= RollingMean(xs, window, i).value <= hi
  {
    var first: nat := i + 1 - window;
    var w := xs[first .. i + 1];
    forall k | 0 <= k < |w| ensures lo <= w[k] <= hi {
      assert w[k] == xs[first + k];
    }
    SumAtLeast(w, lo);
    SumAtMost(w, hi);
    assert RollingMean(xs, window, i).value == Sum(w) / window as real;
    MeanWithin(Sum(w), window as real, lo, hi);
  }

  /** The rolling mean of a non-negative column is non-negative. */
  lemma RollingMeanNonNegative(xs: seq<real>, window: nat, i: nat)
    requires 0 < window <= i + 1 && i < |xs|
    requires forall t :: i + 1 - window <= t <= i ==> 0.0 <= xs[t]
    ensures 0.0 <= RollingMean(xs, window, i).value
  {
    var first: nat := i + 1 - window;
    var w := xs[first .. i + 1];
    forall k | 0 <= k < |w| ensures 0.0 <= w[k] {
      assert w[k] == xs[first + k];
    }
    SumAtLeast(w, 0.0);
  }

  /** Over a non-negative window the rolling mean is zero exactly when every value in it is zero. */
  lemma RollingMeanZeroIff(xs: seq<real>, window: nat, i: nat)
    requires 0 < window <= i + 1 && i < |xs|
    requires forall t :: i + 1 - window <= t <= i ==> 0.0 <= xs[t]
    ensures RollingMean(xs, window, i).value == 0.0 <==> forall t :: i + 1 - window <= t <= i ==> xs[t] == 0.0
  {
    var first: nat := i + 1 - window;
    var w := xs[first .. i + 1];
    forall k | 0 <= k < |w| ensures 0.0 <= w[k] {
      assert w[k] == xs[first + k];
    }
    SumZeroIff(w);
    assert RollingMean(xs, window, i).value == Sum(w) / window as real;
    assert RollingMean(xs, window, i).value == 0.0 <==> Sum(w) == 0.0;
    if Sum(w) == 0.0 {
      forall t | first <= t <= i ensures xs[t] == 0.0 {
        assert xs[t] == w[t - first];
      }
    }
    if forall t :: first <= t <= i ==> xs[t] == 0.0 {
      forall k | 0 <= k < |w| ensures w[k] == 0.0 {
        assert w[k] == xs[first + k];
      }
    }
  }

  /** Position `i` of `diff(1)`: NaN at the first row, otherwise the change from the row before. */
  function Diff(xs: seq<real>, i: nat): (d: Option<real>)
    requires i < |xs|
    ensures d.None? <==> i == 0
    ensures d.Some? ==> xs[i - 1] + d.value == xs[i]
  {
    if i == 0 then None else Some(xs[i] - xs[i - 1])
  }

  /** `df[name]`: one column of a table, read off each row by `field`. */
  function ColumnOf<T, U>(rows: seq<T>, field: T -> U): (col: seq<U>)
    ensures |col| == |rows|
    ensures forall i {:trigger col[i]} :: 0 <= i < |rows| ==> col[i] == field(rows[i])
  {
    seq(|rows|, i requires 0 <= i < |rows| => field(rows[i]))
  }

  /** `shift(1)`: every row takes the previous row's value; the first row becomes NaN. */
  function Shift<T>(xs: seq<T>): (ys: seq<Option<T>>)
    ensures |ys| == |xs|
    ensures xs != [] ==> ys[0] == None
    ensures forall i :: 1 <= i < |xs| ==> ys[i] == Some(xs[i - 1])
  {
    if xs == [] then [] else [None] + seq(|xs| - 1, i requires 0 <= i < |xs| - 1 => Some(xs[i]))
  }

  /** `loc[index]`: the rows whose labels are listed, in the order listed. */
  function Loc<T>(xs: seq<T>, index: seq<nat>): (ys: seq<T>)
    requires forall k :: 0 <= k < |index| ==> index[k] < |xs|
    ensures |ys| == |index|
    ensures forall k {:trigger ys[k]} :: 0 <= k < |index| ==> ys[k] == xs[index[k]]
  {
    seq(|index|, k requires 0 <= k < |index| => xs[index[k]])
  }

  /**
   * The index labels that survive `dropna()`: labels of complete rows only, in their original
   * order and without repetition (`KeptIndicesComplete` adds that no complete row is lost).
   */
  function KeptIndices<T>(rows: seq<T>, complete: T -> bool): (index: seq<nat>)
    ensures forall k :: 0 <= k < |index| ==> index[k] < |rows| && complete(rows[index[k]])
    ensures forall k, l :: 0 <= k < l < |index| ==> index[k] < index[l]
  {
    if rows == [] then []
    else
      var init := rows[..|rows| - 1];
      var rest := KeptIndices(init, complete);
      assert forall j :: 0 <= j < |init| ==> init[j] == rows[j];
      if complete(rows[|rows| - 1]) then rest + [|rows| - 1] else rest
  }

  /** `dropna()` loses no complete row. */
  lemma {:induction false} KeptIndicesComplete<T>(rows: seq<T>, complete: T -> bool, j: nat)
    requires j < |rows| && complete(rows[j])
    ensures j in KeptIndices(rows, complete)
  {
    var init := rows[..|rows| - 1];
    assert forall i :: 0 <= i < |init| ==> init[i] == rows[i];
    if j < |rows| - 1 {
      KeptIndicesComplete(init, complete, j);
    }
  }

  /** When completeness is "from row `first` on", `dropna()` keeps exactly the rows `first`, `first + 1`, ... */
  lemma {:induction false} KeptIndicesFrom<T>(rows: seq<T>, complete: T -> bool, first: nat)
    requires forall j :: 0 <= j < |rows| ==> (complete(rows[j]) <==> first <= j)
    ensures KeptIndices(rows, complete) == seq(if first <= |rows| then |rows| - first else 0, k => first + k)
  {
    if rows != [] {
      var init := rows[..|rows| - 1];
      assert forall j :: 0 <= j < |init| ==> init[j] == rows[j];
      KeptIndicesFrom(init, complete, first);
    }
  }

  /** `dropna(inplace=True)`: walks the frame row by row and keeps the labels of the complete rows. */
  method DropNa<T>(rows: seq<T>, complete: T -> bool) returns (index: seq<nat>)
    ensures index == KeptIndices(rows, complete)
  {
    index := [];
    var i := 0;
    while i < |rows|
      invariant 0 <= i <= |rows|
      invariant index == KeptIndices(rows[..i], complete)
    {
      assert rows[..i + 1][..i] == rows[..i];
      if complete(rows[i]) {
        index := index + [i];
      }
      i := i + 1;
    }
    assert rows[..|rows|] == rows;
  }
}
