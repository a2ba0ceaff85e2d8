# Walk-forward validation of the Lagos PM2.5 forecaster, in Dafny

This project models the evaluation core of the Lagos air-quality forecasting
pipeline, following `scripts/validate.py` and `scripts/evaluate.py`:

- `walk_forward_validate`: an expanding-window, one-step-ahead backtest. For
  each test position the model is refitted on the history. Its forecast is
  recorded, and then the observed test value (not the forecast) is appended
  to the history. The result is a frame with the columns `y_train`, `y_test`
  and `y_pred`. The fitted SARIMA model is abstracted as a function from the
  history to a one-step forecast (`Validate.Forecaster`). The method is
  imperative with a loop, like the source, and is proved against the pure
  specification `Validate.OneStepForecasts`.
- `evaluate_forecast` in both forms. The tuple form is `Validate.EvaluateForecast`
  and the dictionary form is `Evaluate.EvaluateForecast`. Both compute mean
  squared error and mean absolute error (module `Metrics`). The model also
  covers how scikit-learn rejects empty input and NaN cells
  (`Validate.EvaluateColumns`).
- The result-file name `<isoformat to the second, ':' replaced by '-'>_walk_forward_results.csv`
  (`ResultFiles.ResultFileName`). A proof shows that the names sort in the
  order of the `datetime.now()` readings taken at each save, to the second.
- Latest-file selection: glob the results directory, sort the paths by
  Python's code-point string order (module `LexOrder`), and take the last one
  or raise `FileNotFoundError` (`ResultFiles.LoadLatest`).

Modules: `Wrappers` (Option/Result), `Metrics`, `LexOrder`, `ResultFiles`,
`Validate` and `Evaluate`.

Two behaviours of the code worth noting:

- The code has no guard against an empty test series. Such a run fits no
  model and returns a frame with the training rows and no test rows or
  predictions (`Validate.WalkForwardValidate`, `Validate.Rows`).
- `SARIMAX` is built with the default stationarity and invertibility
  enforcement (scripts/validate.py:42). Those flags only affect the abstract
  forecaster.

## Model

| member | source | states |
|---|---|---|
| Validate.WalkForwardValidate | scripts/validate.py:25-54 | The returned frame keeps `train` and `test` unchanged. `y_pred` carries the test index, and at test position t it holds the forecast fitted on `train` followed by exactly the first t observed test values. The frame equals `ValidationFrame` of the inputs. |
| Validate.Reindex | scripts/validate.py:48 | `pd.Series(preds, index=test.index)` has the test's index labels and the predictions as its values, in order. |
| Validate.TeacherForcedIsOneStep | scripts/validate.py:41-46 | The recursive definition (forecast from the history, then extend the history by the observed value) gives the same predictions as the closed form "forecast from train plus the first t test values". |
| Validate.NoLookAhead | scripts/validate.py:41-46 | The prediction at test position t is unchanged when the test values from t on are changed. |
| Validate.MeanForecastExample | scripts/validate.py:38-48 | Worked example: train 1,2,3,4, test 5,6 and a mean-of-history forecaster give predictions 2.5 and 3.0 (the second one sees the observed 5), with MSE 7.625 and MAE 2.75. |
| Validate.EvaluateForecast | scripts/validate.py:93-106 | Both MSE and MAE are non-negative. Each is zero exactly when the predictions equal the actual values. |
| Validate.EvaluateForecastSymmetric | scripts/validate.py:104-106 | Swapping actual and predicted values does not change the (MSE, MAE) pair. |
| Validate.Rows | scripts/validate.py:49-53 | The aligned frame has one row per training label followed by one per test label, in strictly increasing label order. Training rows have only `y_train` set, with NaN in `y_test` and `y_pred`; test rows have `y_test` and `y_pred` set, holding the test value and its prediction. |
| Validate.EvaluateColumns | scripts/validate.py:104-105 | Evaluating two frame columns fails exactly when there are no rows or some row lacks a value. It fails with the NaN error exactly when some row has a missing `y_test` or `y_pred`. |
| Validate.MainMetricsRejectsTrainingRows | scripts/validate.py:110-112 | With any training data, the metrics that `main()` computes over the whole frame fail with the NaN error. |
| Validate.DropMissing | scripts/validate.py:112 | Part of the proposed fix under "## Findings"; the source has no `dropna`. Dropping rows with NaN in `y_test` or `y_pred` keeps exactly the complete rows. When the frame's labels increase, the kept rows' labels still increase, so the original order is kept. |
| Validate.IncreasingLabelsDetermined | scripts/validate.py:49-53 | Two row sequences with increasing labels and the same members are equal: a frame's rows are fixed by their set and label order. |
| Validate.DropMissingKeepsOrder | scripts/validate.py:112 | Part of the proposed fix under "## Findings". Over a frame with increasing labels, any label-increasing sequence holding exactly the complete rows equals the result of dropping the incomplete ones. |
| Validate.DropMissingOfComplete | scripts/validate.py:112 | Part of the proposed fix under "## Findings". Dropping incomplete rows from a frame with no missing cells changes nothing. |
| Validate.KeptTestRows | scripts/validate.py:49-53 | Part of the proposed fix under "## Findings". Dropping the incomplete rows of a validation frame leaves exactly its test rows, in order. |
| Validate.DropMissingOfTrainThenTest | scripts/validate.py:49-53 | Part of the proposed fix under "## Findings". When every row before position n lacks `y_test` and the rows from n on are complete, dropping the incomplete rows leaves exactly the rows from n on. |
| Validate.TestRowMetricsCompareForecasts | scripts/validate.py:110-112 | Over the test rows, the metrics compare each observed test value with its one-step forecast. They fail (no samples) only when the test series is empty. |
| Metrics.Mse | scripts/validate.py:104 | `mean_squared_error` is non-negative. |
| Metrics.Mae | scripts/validate.py:105 | `mean_absolute_error` is non-negative. |
| Metrics.SumSquaredErrorZeroIff | scripts/validate.py:104 | The sum of squared errors is zero if and only if the two sequences are equal. |
| Metrics.SumAbsoluteErrorZeroIff | scripts/validate.py:105 | The sum of absolute errors is zero if and only if the two sequences are equal. |
| Metrics.MseZeroIff | scripts/validate.py:104 | The mean squared error is zero if and only if the predictions equal the actual values. |
| Metrics.MaeZeroIff | scripts/validate.py:105 | The mean absolute error is zero if and only if the predictions equal the actual values. |
| Metrics.SumSquaredErrorSymmetric | scripts/validate.py:104 | The sum of squared errors does not depend on the order of its arguments. |
| Metrics.SumAbsoluteErrorSymmetric | scripts/validate.py:105 | The sum of absolute errors does not depend on the order of its arguments. |
| Metrics.MetricsSymmetric | scripts/evaluate.py:19-20 | MSE and MAE do not depend on which argument holds the actual values. |
| Evaluate.EvaluateForecast | scripts/evaluate.py:8-21 | The dictionary has exactly the keys "MSE" and "MAE". Both values are non-negative, and each is zero exactly when the predictions equal the actual values. |
| Evaluate.AgreesWithValidate | scripts/evaluate.py:19-21 | The dictionary holds the same MSE and MAE as the tuple that scripts/validate.py returns. |
| Evaluate.EvaluateForecastSymmetric | scripts/evaluate.py:19-21 | Swapping actual and predicted values does not change the dictionary. |
| ResultFiles.Replace | scripts/validate.py:67 | `str.replace` of one character keeps the length and substitutes at exactly the positions holding that character. |
| ResultFiles.ResultFileName | scripts/validate.py:67-68 | The saved name has no ':', ends in `_walk_forward_results.csv`, does not start with '.' (so the loader's glob matches it), and is 19 characters longer than the suffix. |
| ResultFiles.TimestampIsSortableForm | scripts/validate.py:67 | The timestamp after the ':' replacement is the fixed-width form YYYY-MM-DDTHH-MM-SS of the clock reading. |
| ResultFiles.DigitsOrder | scripts/validate.py:67 | Zero-padded fields of one width compare as strings exactly as the numbers compare. |
| ResultFiles.TimeOfDayOrder | scripts/validate.py:67 | The HH-MM-SS part sorts as the time of day does, and two are equal exactly at the same second. |
| ResultFiles.SortableFormOrder | scripts/validate.py:67 | Timestamps sort as their clock readings do to the second, and two are equal exactly when the readings share a second. |
| ResultFiles.NameOrderIsChronological | scripts/validate.py:67-68 | One result name sorts before another if and only if its clock reading is in an earlier second. Two names are equal if and only if the readings fall in the same second. |
| ResultFiles.LaterSaveSortsLast | scripts/validate.py:67-68 | A later `datetime.now()` reading never gets a name that sorts before the name of an earlier reading. |
| ResultFiles.Glob | scripts/validate.py:81-82 | The globbed paths are exactly the directory joined with each listed name that ends in the suffix and does not start with '.'. |
| ResultFiles.LoadLatest | scripts/validate.py:81-87 | The loader fails with FileNotFound if and only if no entry matches. Otherwise it picks a matching path that no other matching path sorts after. |
| ResultFiles.JoinOrder | scripts/validate.py:81 | Paths in one directory sort, and are equal, exactly as their entry names do. |
| ResultFiles.LatestIsMostRecentSave | scripts/validate.py:67-87 | When the matching entries are the files of a set of saves, the loader returns the path of the save whose clock reading is in the latest second. |
| LexOrder.Irreflexive | scripts/validate.py:82 | No string sorts before itself. |
| LexOrder.Transitive | scripts/validate.py:82 | Python's string order is transitive. |
| LexOrder.Trichotomy | scripts/validate.py:82 | Any two strings are equal or one sorts before the other. |
| LexOrder.Asymmetric | scripts/validate.py:82 | Two strings never sort before each other. |
| LexOrder.LessOfConcat | scripts/validate.py:82 | Comparing concatenations whose first parts have equal length compares the first parts, then the second parts. |
| LexOrder.CommonPrefix | scripts/validate.py:82 | A common prefix changes neither order nor equality. |
| LexOrder.InsertSorted | scripts/validate.py:82 | Inserting into a sorted list keeps it sorted. |
| LexOrder.Sort | scripts/validate.py:82 | `sorted()` returns a sorted permutation of its input. |
| LexOrder.LastIsGreatest | scripts/validate.py:87 | The last element of a sorted list is at least every element of the list. |

## Left out

- The SARIMA fit and forecast (statsmodels) are foreign code. They are an abstract total function from the history to a real number, so a failed fit or a convergence warning is not modelled, and neither are `order`/`seasonal_order` or the stationarity and invertibility flags.
- Floating point: all values are exact reals. Rounding in the sums and the NaN propagation of pandas arithmetic are not modelled. A NaN cell is a missing value (`None`).
- scikit-learn's rejection of inputs of different lengths: the metric functions require equal lengths, which the frame's alignment always provides.
- Validate.Rows: it models pandas' index alignment only for a test segment that follows the training segment with strictly increasing labels. Overlapping or unsorted indexes are not modelled.
- Validate.NoLookAhead: it holds by construction of `OneStepForecasts`. It documents the property and needs no proof work.
- Validate.WalkForwardValidate: the frame is kept column by column (`WfvFrame`). Its row form is `Validate.Rows`.
- Module-level configuration and data loading (`load_config`, `load_combined_series`, `os.makedirs`), and the CSV written by `to_csv` and read back by `read_csv`. Re-attaching `y_train` after loading (scripts/validate.py:88-89) is not modelled.
- The clock `datetime.now()` and the directory listing are parameters (`now`, `listing`). The results directory name is assumed to contain no glob wildcard characters.
- ResultFiles.LaterSaveSortsLast: "later" means a later `datetime.now()` reading, not a later save. A local clock that steps back (a daylight-saving fall-back, or a manual or NTP correction) can give a newer save an older-sorting name, and that is not modelled.
- ResultFiles.LatestIsMostRecentSave: the loader returns the save with the latest clock reading, which is the most recent save only if the naive local clock never stepped back between saves.
- Time-zone-aware datetimes (a `+HH:MM` suffix in `isoformat`) are not modelled; `datetime.now()` is naive.
- `print` output, `plot_forecast` in scripts/evaluate.py, `main()`'s formatting, and the callers app.py, main.py, scripts/pipeline.py, scripts/model_training.py and scripts/wrangle.py are not part of this model.

## Findings

| source | as written | input that shows it | evidently intended | confidence | as-written member | corrected member |
|---|---|---|---|---|---|---|
| scripts/validate.py:112 | `main()` passes the whole frame's `y_test` and `y_pred` columns to `evaluate_forecast`. Alignment fills those columns with NaN on every training row, so scikit-learn raises ValueError. app.py:45 makes the same call on the loaded file and shows the "no results" warning instead. | any non-empty training series, e.g. train = [1,2,3,4] at labels 0..3 and test = [5,6] at labels 4,5 | the metrics over the test rows only (`dropna` on `y_test`, `y_pred`), comparing each observed test value with its one-step forecast | not executed | Validate.MainMetricsRejectsTrainingRows | Validate.TestRowMetricsCompareForecasts |
