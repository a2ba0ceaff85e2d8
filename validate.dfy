/**
  Walk-forward validation (scripts/validate.py): an expanding-window,
  one-step-ahead backtest in which every step refits the forecaster on the
  history so far and then appends the observed test value to that history.
*/
module Validate {
  import opened Wrappers
  import Metrics

  /** A position of the series' datetime index. */
  type Timestamp = int

  /** One entry of a pandas Series: its index label and its value. */
  datatype Obs = Obs(at: Timestamp, value: real)

  type Series = seq<Obs>

  /**
    `SARIMAX(history, order, seasonal_order).fit(disp=False).forecast()[0]`:
    the one-step forecast of a model fitted on `history`. The fitting itself
    is foreign code and stays abstract.
  */
  type Forecaster = Series -> real

  function Index(s: Series): (labels: seq<Timestamp>)
  {
    seq(|s|, i requires 0 <= i < |s| => s[i].at)
  }

  function Values(s: Series): (vals: seq<real>)
  {
    seq(|s|, i requires 0 <= i < |s| => s[i].value)
  }

  /** `pd.Series(preds, index=test.index)` */
  function Reindex(preds: seq<real>, test: Series): (s: Series)
    requires |preds| == |test|
    ensures Index(s) == Index(test) && Values(s) == preds
  {
    seq(|test|, i requires 0 <= i < |test| => Obs(test[i].at, preds[i]))
  }

  /** The DataFrame with columns 'y_train', 'y_test' and 'y_pred', column by column. */
  datatype WfvFrame = WfvFrame(yTrain: Series, yTest: Series, yPred: Series)

  /**
    The prediction for test position t: the forecast from a model fitted on
    the training series followed by the first t observed test values.
  */
  function OneStepForecasts(train: Series, test: Series, forecast: Forecaster): (preds: seq<real>)
  {
    seq(|test|, t requires 0 <= t < |test| => forecast(train + test[..t]))
  }

  /** The frame a validation run returns: a function of its inputs only. */
  function ValidationFrame(train: Series, test: Series, forecast: Forecaster): (df: WfvFrame)
  {
    WfvFrame(train, test, Reindex(OneStepForecasts(train, test, forecast), test))
  }

  /** `walk_forward_validate(train, test, order, seasonal_order)` */
  method WalkForwardValidate(train: Series, test: Series, forecast: Forecaster) returns (df: WfvFrame)
    ensures df.yTrain == train && df.yTest == test
    ensures Index(df.yPred) == Index(test)
    ensures |df.yPred| == |test|
    ensures forall t :: 0 <= t < |test| ==> df.yPred[t].value == forecast(train + test[..t])
    ensures df == ValidationFrame(train, test, forecast)
  {
    var preds: seq<real> := [];
    var history := train;
    for t := 0 to |test|
      invariant |history| == |train| + t
      invariant history == train + test[..t]
      invariant |preds| == t
      invariant forall i :: 0 <= i < t ==> preds[i] == forecast(train + test[..i])
    {
      var yhat := forecast(history);
      preds := preds + [yhat];
      assert test[..t + 1] == test[..t] + [test[t]];
      history := history + [Obs(test[t].at, test[t].value)];
    }
    assert preds == OneStepForecasts(train, test, forecast);
    var predsSeries := Reindex(preds, test);
    df := WfvFrame(train, test, predsSeries);
  }

  /**
    The same predictions, defined the way the loop runs: forecast from the
    current history, then extend it by the observed value, never by the
    forecast.
  */
  function TeacherForced(history: Series, rest: Series, forecast: Forecaster): (preds: seq<real>)
    decreases |rest|
  {
    if |rest| == 0 then []
    else [forecast(history)] + TeacherForced(history + [rest[0]], rest[1..], forecast)
  }

  lemma {:induction false} TeacherForcedIsOneStep(history: Series, rest: Series, forecast: Forecaster)
    ensures TeacherForced(history, rest, forecast) == OneStepForecasts(history, rest, forecast)
    decreases |rest|
  {
    if |rest| > 0 {
      TeacherForcedIsOneStep(history + [rest[0]], rest[1..], forecast);
      var tail := OneStepForecasts(history + [rest[0]], rest[1..], forecast);
      var all := OneStepForecasts(history, rest, forecast);
      assert rest[..0] == [];
      assert history + rest[..0] == history;
      forall k | 0 <= k < |tail| ensures tail[k] == all[k + 1] {
        assert rest[..k + 1] == [rest[0]] + rest[1..][..k];
        assert history + rest[..k + 1] == (history + [rest[0]]) + rest[1..][..k];
      }
      assert all == [all[0]] + tail;
    }
  }

  /**
    No look-ahead: the prediction for position t depends only on the training
    series and the test values before t.
  */
  lemma NoLookAhead(train: Series, test1: Series, test2: Series, forecast: Forecaster, t: nat)
    requires t < |test1| && t < |test2|
    requires test1[..t] == test2[..t]
    ensures OneStepForecasts(train, test1, forecast)[t] == OneStepForecasts(train, test2, forecast)[t]
  {
  }

  /** `evaluate_forecast(y_true, y_pred)` returning `(mse, mae)`. */
  function EvaluateForecast(yTrue: seq<real>, yPred: seq<real>): (r: (real, real))
    requires |yTrue| == |yPred| > 0
    ensures r.0 >= 0.0 && r.1 >= 0.0
    ensures r.0 == 0.0 <==> yTrue == yPred
    ensures r.1 == 0.0 <==> yTrue == yPred
  {
    Metrics.MseZeroIff(yTrue, yPred);
    Metrics.MaeZeroIff(yTrue, yPred);
    (Metrics.Mse(yTrue, yPred), Metrics.Mae(yTrue, yPred))
  }

  /** Swapping actual and predicted values leaves the pair unchanged. */
  lemma EvaluateForecastSymmetric(yTrue: seq<real>, yPred: seq<real>)
    requires |yTrue| == |yPred| > 0
    ensures EvaluateForecast(yTrue, yPred) == EvaluateForecast(yPred, yTrue)
  {
    Metrics.MetricsSymmetric(yTrue, yPred);
  }

  function SumValues(h: Series): (total: real)
  {
    if |h| == 0 then 0.0 else h[0].value + SumValues(h[1..])
  }

  /** The mean of the history: a stand-in for the fitted model in a worked example. */
  function MeanForecast(h: Series): (yhat: real)
  {
    if |h| == 0 then 0.0 else SumValues(h) / (|h| as real)
  }

  /**
    Worked example: training values 1, 2, 3, 4 and test values 5, 6 at hourly
    positions. The second forecast sees the observed 5, not the first forecast.
  */
  lemma MeanForecastExample()
    ensures OneStepForecasts([Obs(0, 1.0), Obs(1, 2.0), Obs(2, 3.0), Obs(3, 4.0)],
                             [Obs(4, 5.0), Obs(5, 6.0)], MeanForecast) == [2.5, 3.0]
    ensures EvaluateForecast([5.0, 6.0], [2.5, 3.0]) == (7.625, 2.75)
  {
    var train := [Obs(0, 1.0), Obs(1, 2.0), Obs(2, 3.0), Obs(3, 4.0)];
    var test := [Obs(4, 5.0), Obs(5, 6.0)];
    assert train + test[..0] == train;
    assert train + test[..1] == train + [Obs(4, 5.0)];
    var h := train + [Obs(4, 5.0)];
    assert h[1..] == [Obs(1, 2.0), Obs(2, 3.0), Obs(3, 4.0), Obs(4, 5.0)];
    assert h[1..][1..] == [Obs(2, 3.0), Obs(3, 4.0), Obs(4, 5.0)];
    assert h[1..][1..][1..] == [Obs(3, 4.0), Obs(4, 5.0)];
    assert h[1..][1..][1..][1..] == [Obs(4, 5.0)];
    assert SumValues([Obs(4, 5.0)]) == 5.0;
    assert SumValues(h[1..][1..][1..]) == 9.0;
    assert SumValues(h[1..][1..]) == 12.0;
    assert SumValues(h[1..]) == 14.0;
    assert SumValues(train) == 10.0;
    assert SumValues(h) == 15.0;
    assert MeanForecast(h) == 3.0;
    assert MeanForecast(train) == 2.5;
    var preds := OneStepForecasts(train, test, MeanForecast);
    assert preds[0] == MeanForecast(train + test[..0]);
    assert preds[1] == MeanForecast(train + test[..1]);
    assert |preds| == 2 && preds[0] == 2.5 && preds[1] == 3.0;
  }

  /** One row of the returned DataFrame; `None` is a NaN cell. */
  datatype Row = Row(at: Timestamp, yTrain: Option<real>, yTest: Option<real>, yPred: Option<real>)

  predicate StrictlyIncreasing(s: Series)
  {
    forall i, j :: 0 <= i < j < |s| ==> s[i].at < s[j].at
  }

  /**
    The rows of `pd.DataFrame({'y_train': train, 'y_test': test, 'y_pred': preds_series})`.
    pandas aligns the columns on the sorted union of their indexes; when the
    test segment follows the training segment in time, that union is the
    training index followed by the test index, and each row has NaN in the
    columns whose series lacks its label.
  */
  function Rows(df: WfvFrame): (rows: seq<Row>)
    requires StrictlyIncreasing(df.yTrain + df.yTest)
    requires Index(df.yPred) == Index(df.yTest)
    ensures |rows| == |df.yTrain| + |df.yTest|
    ensures forall i :: 0 <= i < |rows| ==> rows[i].at == (df.yTrain + df.yTest)[i].at
    ensures forall i, j :: 0 <= i < j < |rows| ==> rows[i].at < rows[j].at
    ensures forall i :: 0 <= i < |rows| ==> (rows[i].yTrain.Some? <==> i < |df.yTrain|)
    ensures forall i :: 0 <= i < |rows| ==> (rows[i].yTest.Some? <==> i >= |df.yTrain|)
    ensures forall i :: 0 <= i < |rows| ==> (rows[i].yPred.Some? <==> i >= |df.yTrain|)
    ensures forall i :: 0 <= i < |df.yTrain| ==> rows[i].yTrain == Some(df.yTrain[i].value)
    ensures forall i :: |df.yTrain| <= i < |rows| ==>
      rows[i].yTest == Some(df.yTest[i - |df.yTrain|].value)
      && rows[i].yPred == Some(df.yPred[i - |df.yTrain|].value)
  {
    var n := |df.yTrain|;
    seq(n + |df.yTest|, i requires 0 <= i < n + |df.yTest| =>
      if i < n then Row(df.yTrain[i].at, Some(df.yTrain[i].value), None, None)
      else Row(df.yTest[i - n].at, None, Some(df.yTest[i - n].value), Some(df.yPred[i - n].value)))
  }

  /** Why scikit-learn's metrics raise ValueError. */
  datatype MetricError = NoSamples | InputContainsNaN

  predicate Complete(rows: seq<Row>)
  {
    forall i :: 0 <= i < |rows| ==> rows[i].yTest.Some? && rows[i].yPred.Some?
  }

  /**
    `evaluate_forecast(df['y_test'], df['y_pred'])` on two whole columns:
    scikit-learn refuses empty input and input containing NaN.
  */
  function EvaluateColumns(rows: seq<Row>): (r: Result<(real, real), MetricError>)
    ensures r.Failure? <==> |rows| == 0 || !Complete(rows)
    ensures r == Failure(InputContainsNaN) <==>
      exists i :: 0 <= i < |rows| && (rows[i].yTest.None? || rows[i].yPred.None?)
  {
    if |rows| == 0 then Failure(NoSamples)
    else if !Complete(rows) then Failure(InputContainsNaN)
    else
      var actual := seq(|rows|, i requires 0 <= i < |rows| => rows[i].yTest.value);
      var predicted := seq(|rows|, i requires 0 <= i < |rows| => rows[i].yPred.value);
      Success(EvaluateForecast(actual, predicted))
  }

  /**
    What `main()` computes after saving: the metrics over the 'y_test' and
    'y_pred' columns of the whole frame, training rows included.
  */
  function MainMetrics(train: Series, test: Series, forecast: Forecaster): (r: Result<(real, real), MetricError>)
    requires StrictlyIncreasing(train + test)
  {
    EvaluateColumns(Rows(ValidationFrame(train, test, forecast)))
  }

  /** Every training row carries NaN in 'y_test' and 'y_pred', so the metrics raise. */
  lemma MainMetricsRejectsTrainingRows(train: Series, test: Series, forecast: Forecaster)
    requires StrictlyIncreasing(train + test)
    requires |train| > 0
    ensures MainMetrics(train, test, forecast) == Failure(InputContainsNaN)
  {
    var rows := Rows(ValidationFrame(train, test, forecast));
    assert rows[0].yTest.None?;
  }

  predicate IncreasingLabels(rows: seq<Row>)
  {
    forall i, j :: 0 <= i < j < |rows| ==> rows[i].at < rows[j].at
  }

  /**
    `df.dropna(subset=['y_test', 'y_pred'])`: the complete rows, in their
    original order. Over a frame with increasing labels the kept rows still
    have increasing labels, which together with the membership clause fixes
    the result.
  */
  function DropMissing(rows: seq<Row>): (kept: seq<Row>)
    ensures Complete(kept)
    ensures forall r :: r in kept <==> r in rows && r.yTest.Some? && r.yPred.Some?
    ensures IncreasingLabels(rows) ==> IncreasingLabels(kept)
  {
    if |rows| == 0 then []
    else
      var rest := DropMissing(rows[1..]);
      if rows[0].yTest.Some? && rows[0].yPred.Some? then
        KeepStep(rows, rest);
        [rows[0]] + rest
      else
        SkipStep(rows, rest);
        rest
  }

  /** The clauses of `DropMissing` for a complete first row, given them for the rest. */
  lemma KeepStep(rows: seq<Row>, rest: seq<Row>)
    requires |rows| > 0 && rows[0].yTest.Some? && rows[0].yPred.Some?
    requires Complete(rest)
    requires forall r :: r in rest <==> r in rows[1..] && r.yTest.Some? && r.yPred.Some?
    requires IncreasingLabels(rows[1..]) ==> IncreasingLabels(rest)
    ensures Complete([rows[0]] + rest)
    ensures forall r :: r in [rows[0]] + rest <==> r in rows && r.yTest.Some? && r.yPred.Some?
    ensures IncreasingLabels(rows) ==> IncreasingLabels([rows[0]] + rest)
  {
    assert rows == [rows[0]] + rows[1..];
    var all := [rows[0]] + rest;
    forall i | 0 <= i < |all| ensures all[i].yTest.Some? && all[i].yPred.Some? {
      if i > 0 {
        assert all[i] == rest[i - 1];
      }
    }
    if IncreasingLabels(rows) {
      IncreasingTail(rows);
      HeadPrecedes(rows, rest);
    }
  }

  lemma IncreasingTail(rows: seq<Row>)
    requires |rows| > 0 && IncreasingLabels(rows)
    ensures IncreasingLabels(rows[1..])
  {
    forall i, j | 0 <= i < j < |rows| - 1 ensures rows[1..][i].at < rows[1..][j].at {
      assert rows[1..][i] == rows[i + 1] && rows[1..][j] == rows[j + 1];
    }
  }

  /** In a label-increasing frame the first row precedes every row drawn from the rest. */
  lemma HeadPrecedes(rows: seq<Row>, later: seq<Row>)
    requires |rows| > 0 && IncreasingLabels(rows) && IncreasingLabels(later)
    requires forall r :: r in later ==> r in rows[1..]
    ensures IncreasingLabels([rows[0]] + later)
  {
    var all := [rows[0]] + later;
    forall i, j | 0 <= i < j < |all| ensures all[i].at < all[j].at {
      assert all[j] == later[j - 1] && all[j] in rows[1..];
      var k :| 0 <= k < |rows| - 1 && rows[1..][k] == all[j];
      if i > 0 {
        assert all[i] == later[i - 1];
      } else {
        assert rows[k + 1] == all[j];
      }
    }
  }

  /** The clauses of `DropMissing` for an incomplete first row, given them for the rest. */
  lemma SkipStep(rows: seq<Row>, rest: seq<Row>)
    requires |rows| > 0 && !(rows[0].yTest.Some? && rows[0].yPred.Some?)
    requires forall r :: r in rest <==> r in rows[1..] && r.yTest.Some? && r.yPred.Some?
    requires IncreasingLabels(rows[1..]) ==> IncreasingLabels(rest)
    ensures forall r :: r in rest <==> r in rows && r.yTest.Some? && r.yPred.Some?
    ensures IncreasingLabels(rows) ==> IncreasingLabels(rest)
  {
    assert rows == [rows[0]] + rows[1..];
  }

  /** Two label-increasing row sequences with the same members are equal. */
  lemma {:induction false} IncreasingLabelsDetermined(a: seq<Row>, b: seq<Row>)
    requires IncreasingLabels(a) && IncreasingLabels(b)
    requires forall r :: r in a <==> r in b
    ensures a == b
    decreases |a|
  {
    if |a| > 0 {
      SameFirst(a, b);
      SameRest(a, b);
      IncreasingLabelsDetermined(a[1..], b[1..]);
      assert a == [a[0]] + a[1..] && b == [b[0]] + b[1..];
    } else {
      FirstIsMember(a, b);
    }
  }

  lemma FirstIsMember(a: seq<Row>, b: seq<Row>)
    requires forall r :: r in a <==> r in b
    ensures |b| > 0 ==> b[0] in a
  {
    if |b| > 0 {
      assert b[0] in b;
    }
  }

  /** The row with the smallest label comes first in both. */
  lemma SameFirst(a: seq<Row>, b: seq<Row>)
    requires |a| > 0
    requires IncreasingLabels(a) && IncreasingLabels(b)
    requires forall r :: r in a <==> r in b
    ensures |b| > 0 && a[0] == b[0]
  {
    assert a[0] in b;
    var k :| 0 <= k < |b| && b[k] == a[0];
    assert b[0] in a;
    var m :| 0 <= m < |a| && a[m] == b[0];
    assert a[0].at <= a[m].at && b[0].at <= b[k].at;
  }

  /** Once the shared first row is removed, the rest have the same members. */
  lemma SameRest(a: seq<Row>, b: seq<Row>)
    requires |a| > 0 && |b| > 0 && a[0] == b[0]
    requires IncreasingLabels(a) && IncreasingLabels(b)
    requires forall r :: r in a <==> r in b
    ensures IncreasingLabels(a[1..]) && IncreasingLabels(b[1..])
    ensures forall r :: r in a[1..] <==> r in b[1..]
  {
    forall r | r in a[1..] ensures r in b[1..] {
      LaterMember(a, b, r);
    }
    forall r | r in b[1..] ensures r in a[1..] {
      LaterMember(b, a, r);
    }
  }

  /** A row after the first of `a` is a row after the first of `b`. */
  lemma LaterMember(a: seq<Row>, b: seq<Row>, r: Row)
    requires |a| > 0 && |b| > 0 && a[0] == b[0]
    requires IncreasingLabels(a) && IncreasingLabels(b)
    requires forall x :: x in a <==> x in b
    requires r in a[1..]
    ensures r in b[1..]
  {
    var i :| 1 <= i < |a| && a[i] == r;
    assert a[0].at < a[i].at;
    assert r in a;
    var j :| 0 <= j < |b| && b[j] == r;
    assert j > 0;
    assert b[1..][j - 1] == r;
  }

  /**
    Over rows with increasing labels, `DropMissing` is the only order-keeping
    selection of the complete rows: any label-increasing sequence holding
    exactly the complete rows equals it.
  */
  lemma DropMissingKeepsOrder(rows: seq<Row>, kept: seq<Row>)
    requires IncreasingLabels(rows) && IncreasingLabels(kept)
    requires forall r :: r in kept <==> r in rows && r.yTest.Some? && r.yPred.Some?
    ensures kept == DropMissing(rows)
  {
    IncreasingLabelsDetermined(kept, DropMissing(rows));
  }

  /**
    The metrics over the test rows only: the comparison the program evidently
    intends, of each observed test value with its one-step forecast.
  */
  function TestRowMetrics(train: Series, test: Series, forecast: Forecaster): (r: Result<(real, real), MetricError>)
    requires StrictlyIncreasing(train + test)
  {
    EvaluateColumns(DropMissing(Rows(ValidationFrame(train, test, forecast))))
  }

  /** A frame without missing cells loses no row. */
  lemma {:induction false} DropMissingOfComplete(rows: seq<Row>)
    requires Complete(rows)
    ensures DropMissing(rows) == rows
    decreases |rows|
  {
    if |rows| > 0 {
      var tail := rows[1..];
      DropMissingKeepsHead(rows);
      CompleteTail(rows);
      DropMissingOfComplete(tail);
      calc {
        DropMissing(rows);
        [rows[0]] + DropMissing(tail);
        [rows[0]] + tail;
        rows;
      }
    }
  }

  lemma {:induction false} DropMissingOfTrainThenTest(rows: seq<Row>, n: nat)
    requires n <= |rows|
    requires forall i :: 0 <= i < n ==> rows[i].yTest.None?
    requires Complete(rows[n..])
    ensures DropMissing(rows) == rows[n..]
    decreases n
  {
    if n == 0 {
      assert rows[n..] == rows;
      DropMissingOfComplete(rows);
    } else {
      var tail := rows[1..];
      DropMissingSkipsHead(rows);
      assert tail[n - 1..] == rows[n..];
      forall i | 0 <= i < n - 1 ensures tail[i].yTest.None? {
        assert tail[i] == rows[i + 1];
      }
      DropMissingOfTrainThenTest(tail, n - 1);
    }
  }

  lemma CompleteTail(rows: seq<Row>)
    requires |rows| > 0 && Complete(rows)
    ensures Complete(rows[1..])
  {
    forall i | 0 <= i < |rows| - 1 ensures rows[1..][i].yTest.Some? && rows[1..][i].yPred.Some? {
      assert rows[1..][i] == rows[i + 1];
    }
  }

  lemma DropMissingSkipsHead(rows: seq<Row>)
    requires |rows| > 0 && rows[0].yTest.None?
    ensures DropMissing(rows) == DropMissing(rows[1..])
  {
  }

  lemma DropMissingKeepsHead(rows: seq<Row>)
    requires |rows| > 0 && rows[0].yTest.Some? && rows[0].yPred.Some?
    ensures DropMissing(rows) == [rows[0]] + DropMissing(rows[1..])
  {
  }

  /**
    Over the test rows the metrics compare each observed test value with the
    one-step forecast made for it; they raise only when there is no test row.
  */
  lemma TestRowMetricsCompareForecasts(train: Series, test: Series, forecast: Forecaster)
    requires StrictlyIncreasing(train + test)
    ensures |test| == 0 ==> TestRowMetrics(train, test, forecast) == Failure(NoSamples)
    ensures |test| > 0 ==>
      TestRowMetrics(train, test, forecast)
        == Success(EvaluateForecast(Values(test), OneStepForecasts(train, test, forecast)))
  {
    var rows := Rows(ValidationFrame(train, test, forecast));
    KeptTestRows(train, test, forecast);
    if |test| > 0 {
      TestRowCells(train, test, forecast);
      EvaluateColumnsOfCells(rows[|train|..], Values(test), OneStepForecasts(train, test, forecast));
    }
  }

  /** Evaluating rows whose cells hold `actual` and `predicted` compares those sequences. */
  lemma EvaluateColumnsOfCells(rows: seq<Row>, actual: seq<real>, predicted: seq<real>)
    requires |rows| > 0 && |actual| == |rows| && |predicted| == |rows|
    requires forall i :: 0 <= i < |rows| ==> rows[i].yTest == Some(actual[i]) && rows[i].yPred == Some(predicted[i])
    ensures EvaluateColumns(rows) == Success(EvaluateForecast(actual, predicted))
  {
    assert Complete(rows);
    assert seq(|rows|, i requires 0 <= i < |rows| => rows[i].yTest.value) == actual;
    assert seq(|rows|, i requires 0 <= i < |rows| => rows[i].yPred.value) == predicted;
  }

  /** The test rows of a validation frame hold each test value beside its one-step forecast. */
  lemma TestRowCells(train: Series, test: Series, forecast: Forecaster)
    requires StrictlyIncreasing(train + test)
    ensures var kept := Rows(ValidationFrame(train, test, forecast))[|train|..];
      && |kept| == |test|
      && forall i :: 0 <= i < |test| ==>
        kept[i].yTest == Some(Values(test)[i])
        && kept[i].yPred == Some(OneStepForecasts(train, test, forecast)[i])
  {
    var df := ValidationFrame(train, test, forecast);
    var rows := Rows(df);
    forall i | 0 <= i < |test|
      ensures rows[|train|..][i].yTest == Some(Values(test)[i])
      ensures rows[|train|..][i].yPred == Some(OneStepForecasts(train, test, forecast)[i])
    {
      assert rows[|train|..][i] == rows[|train| + i];
      assert df.yPred[i].value == Values(df.yPred)[i];
    }
  }

  /** Dropping the incomplete rows of a validation frame leaves exactly its test rows. */
  lemma KeptTestRows(train: Series, test: Series, forecast: Forecaster)
    requires StrictlyIncreasing(train + test)
    ensures var rows := Rows(ValidationFrame(train, test, forecast));
      DropMissing(rows) == rows[|train|..]
  {
    var rows := Rows(ValidationFrame(train, test, forecast));
    var n := |train|;
    assert Complete(rows[n..]);
    DropMissingOfTrainThenTest(rows, n);
  }
}
