/**
  The two regression metrics the program takes from scikit-learn,
  `mean_squared_error` and `mean_absolute_error`, over paired real-valued
  observations (actual first, predicted second).
*/
module Metrics {

  function Abs(x: real): (r: real)
    ensures r >= 0.0
    ensures r == 0.0 <==> x == 0.0
    ensures r == x || r == -x
  {
    if x < 0.0 then -x else x
  }

  /**
    Real multiplication behind a function symbol, so that the solver reasons
    about the sign of a squared difference through ProductPositive instead of
    its own non-linear heuristics.
  */
  function Product(x: real, y: real): (p: real)
  {
    x * y
  }

  lemma ProductPositive(x: real, y: real)
    requires (x > 0.0 && y > 0.0) || (x < 0.0 && y < 0.0)
    ensures Product(x, y) > 0.0
  {
    if x < 0.0 {
      assert x * y == (-x) * (-y);
    }
  }

  /** Sum over i of (a[i] - b[i])^2. */
  function SumSquaredError(a: seq<real>, b: seq<real>): (r: real)
    requires |a| == |b|
    ensures r >= 0.0
    decreases |a|
  {
    if |a| == 0 then 0.0
    else Product(a[0] - b[0], a[0] - b[0]) + SumSquaredError(a[1..], b[1..])
  }

  /** Sum over i of |a[i] - b[i]|. */
  function SumAbsoluteError(a: seq<real>, b: seq<real>): (r: real)
    requires |a| == |b|
    ensures r >= 0.0
    decreases |a|
  {
    if |a| == 0 then 0.0
    else Abs(a[0] - b[0]) + SumAbsoluteError(a[1..], b[1..])
  }

  /** `mean_squared_error(yTrue, yPred)`: the mean of the squared differences. */
  function Mse(yTrue: seq<real>, yPred: seq<real>): (r: real)
    requires |yTrue| == |yPred| > 0
    ensures r >= 0.0
  {
    SumSquaredError(yTrue, yPred) / (|yTrue| as real)
  }

  /** `mean_absolute_error(yTrue, yPred)`: the mean of the absolute differences. */
  function Mae(yTrue: seq<real>, yPred: seq<real>): (r: real)
    requires |yTrue| == |yPred| > 0
    ensures r >= 0.0
  {
    SumAbsoluteError(yTrue, yPred) / (|yTrue| as real)
  }

  lemma {:induction false} SumSquaredErrorZeroIff(a: seq<real>, b: seq<real>)
    requires |a| == |b|
    ensures SumSquaredError(a, b) == 0.0 <==> a == b
    decreases |a|
  {
    if |a| > 0 {
      SumSquaredErrorZeroIff(a[1..], b[1..]);
      if a[0] != b[0] {
        ProductPositive(a[0] - b[0], a[0] - b[0]);
      }
      assert a == [a[0]] + a[1..];
      assert b == [b[0]] + b[1..];
    }
  }

  lemma {:induction false} SumAbsoluteErrorZeroIff(a: seq<real>, b: seq<real>)
    requires |a| == |b|
    ensures SumAbsoluteError(a, b) == 0.0 <==> a == b
    decreases |a|
  {
    if |a| > 0 {
      SumAbsoluteErrorZeroIff(a[1..], b[1..]);
      assert a == [a[0]] + a[1..];
      assert b == [b[0]] + b[1..];
    }
  }

  /** MSE is zero exactly when every prediction equals its actual value. */
  lemma MseZeroIff(yTrue: seq<real>, yPred: seq<real>)
    requires |yTrue| == |yPred| > 0
    ensures Mse(yTrue, yPred) == 0.0 <==> yTrue == yPred
  {
    SumSquaredErrorZeroIff(yTrue, yPred);
  }

  /** MAE is zero exactly when every prediction equals its actual value. */
  lemma MaeZeroIff(yTrue: seq<real>, yPred: seq<real>)
    requires |yTrue| == |yPred| > 0
    ensures Mae(yTrue, yPred) == 0.0 <==> yTrue == yPred
  {
    SumAbsoluteErrorZeroIff(yTrue, yPred);
  }

  lemma {:induction false} SumSquaredErrorSymmetric(a: seq<real>, b: seq<real>)
    requires |a| == |b|
    ensures SumSquaredError(a, b) == SumSquaredError(b, a)
    decreases |a|
  {
    if |a| > 0 {
      SumSquaredErrorSymmetric(a[1..], b[1..]);
      assert Product(a[0] - b[0], a[0] - b[0]) == Product(b[0] - a[0], b[0] - a[0]);
    }
  }

  lemma {:induction false} SumAbsoluteErrorSymmetric(a: seq<real>, b: seq<real>)
    requires |a| == |b|
    ensures SumAbsoluteError(a, b) == SumAbsoluteError(b, a)
    decreases |a|
  {
    if |a| > 0 {
      SumAbsoluteErrorSymmetric(a[1..], b[1..]);
    }
  }

  /** Swapping actual and predicted leaves both metrics unchanged. */
  lemma MetricsSymmetric(yTrue: seq<real>, yPred: seq<real>)
    requires |yTrue| == |yPred| > 0
    ensures Mse(yTrue, yPred) == Mse(yPred, yTrue)
    ensures Mae(yTrue, yPred) == Mae(yPred, yTrue)
  {
    SumSquaredErrorSymmetric(yTrue, yPred);
    SumAbsoluteErrorSymmetric(yTrue, yPred);
  }
}
