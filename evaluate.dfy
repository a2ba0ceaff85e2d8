/**
  `evaluate_forecast` in scripts/evaluate.py: the same two metrics as the
  validation script's function of that name, returned as a dictionary.
*/
module Evaluate {
  import Metrics
  import Validate

  const MSE_KEY: string := "MSE"
  const MAE_KEY: string := "MAE"

  /** `{"MSE": mean_squared_error(y_true, y_pred), "MAE": mean_absolute_error(y_true, y_pred)}` */
  function EvaluateForecast(yTrue: seq<real>, yPred: seq<real>): (r: map<string, real>)
    requires |yTrue| == |yPred| > 0
    ensures r.Keys == {MSE_KEY, MAE_KEY}
    ensures r[MSE_KEY] >= 0.0 && r[MAE_KEY] >= 0.0
    ensures r[MSE_KEY] == 0.0 <==> yTrue == yPred
    ensures r[MAE_KEY] == 0.0 <==> yTrue == yPred
  {
    Metrics.MseZeroIff(yTrue, yPred);
    Metrics.MaeZeroIff(yTrue, yPred);
    map[MSE_KEY := Metrics.Mse(yTrue, yPred), MAE_KEY := Metrics.Mae(yTrue, yPred)]
  }

  /** The dictionary holds the `(mse, mae)` pair that scripts/validate.py returns. */
  lemma AgreesWithValidate(yTrue: seq<real>, yPred: seq<real>)
    requires |yTrue| == |yPred| > 0
    ensures EvaluateForecast(yTrue, yPred)[MSE_KEY] == Validate.EvaluateForecast(yTrue, yPred).0
    ensures EvaluateForecast(yTrue, yPred)[MAE_KEY] == Validate.EvaluateForecast(yTrue, yPred).1
  {
  }

  /** Swapping actual and predicted values leaves the dictionary unchanged. */
  lemma EvaluateForecastSymmetric(yTrue: seq<real>, yPred: seq<real>)
    requires |yTrue| == |yPred| > 0
    ensures EvaluateForecast(yTrue, yPred) == EvaluateForecast(yPred, yTrue)
  {
    Validate.EvaluateForecastSymmetric(yTrue, yPred);
    AgreesWithValidate(yTrue, yPred);
    AgreesWithValidate(yPred, yTrue);
  }
}
