/** detect/rates.py: smoothed rates over commit windows, and how fast a quiet test recovers. */
module Rates {
  import opened History

  function Pow(x: real, n: nat): real { if n == 0 then 1.0 else x * Pow(x, n - 1) }

  /** The recurrence of the smoothing loop. */
  function Ewma(values: seq<real>, alpha: real): real {
    if values == [] then 0.0
    else if |values| == 1 then values[0]
    else alpha * values[|values| - 1] + (1.0 - alpha) * Ewma(values[..|values| - 1], alpha)
  }

  method ComputeEwma(values: seq<real>, alpha: real) returns (smoothed: real)
    ensures smoothed == Ewma(values, alpha)
  {
    if values == [] {
      return 0.0;
    }
    smoothed := values[0];
    assert values[..1] == [values[0]];
    for k := 1 to |values|
      invariant smoothed == Ewma(values[..k], alpha)
    {
      assert values[..k + 1][..k] == values[..k];
      smoothed := alpha * values[k] + (1.0 - alpha) * smoothed;
    }
    assert values[..|values|] == values;
  }

  // ---- products ----------------------------------------------------------

  lemma {:induction false} Product(a: real, b: real)
    requires 0.0 <= a && 0.0 <= b
    ensures 0.0 <= a * b
  {
  }

  lemma {:induction false} ProductAtMost(a: real, b: real)
    requires 0.0 <= a && 0.0 <= b <= 1.0
    ensures a * b <= a
  {
    Product(a, 1.0 - b);
    Distribute(a, 1.0, -b);
  }

  lemma {:induction false} Fraction(p: real, e: real, r: real)
    requires 0.0 <= p && 0.0 <= e <= 1.0 && r == p * e
    ensures 0.0 <= r <= p
  {
    Product(p, e);
    ProductAtMost(p, e);
  }

  lemma {:induction false} Distribute(a: real, x: real, y: real)
    ensures a * (x + y) == a * x + a * y
    ensures (x + y) * a == x * a + y * a
  {
  }

  lemma {:induction false} Associate(a: real, b: real, c: real)
    ensures (a * b) * c == a * (b * c) == b * (a * c)
  {
  }

  // ---- the closed form ---------------------------------------------------

  /** The weight of value `i` among `n`: the first carries what the others leave. */
  function Weight(n: nat, i: nat, alpha: real): real
    requires i < n
  {
    if i == 0 then Pow(1.0 - alpha, n - 1) else alpha * Pow(1.0 - alpha, n - 1 - i)
  }

  function Sum(s: seq<real>): real {
    if s == [] then 0.0 else Sum(s[..|s| - 1]) + s[|s| - 1]
  }

  function Term(n: nat, i: nat, alpha: real, value: real): real
    requires i < n
  {
    Weight(n, i, alpha) * value
  }

  function Terms(values: seq<real>, alpha: real): (t: seq<real>)
    ensures |t| == |values|
  {
    seq(|values|, i requires 0 <= i < |values| => Term(|values|, i, alpha, values[i]))
  }

  function WeightedSum(values: seq<real>, alpha: real): real { Sum(Terms(values, alpha)) }

  function WeightSum(n: nat, k: nat, alpha: real): real
    requires k <= n
  {
    if k == 0 then 0.0 else WeightSum(n, k - 1, alpha) + Weight(n, k - 1, alpha)
  }

  lemma {:induction false} PowUnit(x: real, n: nat)
    requires 0.0 <= x <= 1.0
    ensures 0.0 <= Pow(x, n) <= 1.0
  {
    if n > 0 {
      PowUnit(x, n - 1);
      Product(x, Pow(x, n - 1));
      ProductAtMost(x, Pow(x, n - 1));
    }
  }

  ghost predicate ScaledBy(s: seq<real>, t: seq<real>, beta: real) {
    |s| == |t| && forall i :: 0 <= i < |s| ==> s[i] == beta * t[i]
  }

  lemma {:induction false} SumScaled(s: seq<real>, t: seq<real>, beta: real)
    requires ScaledBy(s, t, beta)
    ensures Sum(s) == beta * Sum(t)
  {
    if s != [] {
      var n := |s| - 1;
      SumScaled(s[..n], t[..n], beta);
      Distribute(beta, Sum(t[..n]), t[n]);
    }
  }

  lemma {:induction false} TermScaled(n: nat, i: nat, alpha: real, value: real)
    requires i < n - 1
    ensures Term(n, i, alpha, value) == (1.0 - alpha) * Term(n - 1, i, alpha, value)
  {
    WeightStep(n, i, alpha);
    Associate(1.0 - alpha, Weight(n - 1, i, alpha), value);
  }

  lemma {:induction false} TermsScaled(values: seq<real>, alpha: real, rest: seq<real>)
    requires |values| > 1 && rest == values[..|values| - 1]
    ensures ScaledBy(Terms(values, alpha)[..|values| - 1], Terms(rest, alpha), 1.0 - alpha)
  {
    forall i | 0 <= i < |rest| ensures Terms(values, alpha)[i] == (1.0 - alpha) * Terms(rest, alpha)[i] {
      TermScaled(|values|, i, alpha, values[i]);
    }
  }

  lemma {:induction false} WeightStep(n: nat, i: nat, alpha: real)
    requires i < n - 1
    ensures Weight(n, i, alpha) == (1.0 - alpha) * Weight(n - 1, i, alpha)
  {
    if i == 0 {
      assert Pow(1.0 - alpha, n - 1) == (1.0 - alpha) * Pow(1.0 - alpha, n - 2);
    } else {
      var p := Pow(1.0 - alpha, n - 2 - i);
      assert Pow(1.0 - alpha, n - 1 - i) == (1.0 - alpha) * p;
      Associate(alpha, 1.0 - alpha, p);
    }
  }

  lemma {:induction false} LastTerm(n: nat, alpha: real, value: real)
    requires n > 1
    ensures Term(n, n - 1, alpha, value) == alpha * value
  {
    assert Pow(1.0 - alpha, 0) == 1.0;
    assert Weight(n, n - 1, alpha) == alpha;
  }

  lemma {:induction false} OnlyTerm(alpha: real, value: real)
    ensures Term(1, 0, alpha, value) == value
  {
    assert Weight(1, 0, alpha) == 1.0;
  }

  lemma {:induction false} WeightedSumOne(values: seq<real>, alpha: real)
    requires |values| == 1
    ensures WeightedSum(values, alpha) == values[0]
  {
    OnlyTerm(alpha, values[0]);
    var terms := Terms(values, alpha);
    assert terms[..0] == [] && Sum(terms[..0]) == 0.0;
  }

  lemma {:induction false} WeightedSumSplit(values: seq<real>, alpha: real)
    requires |values| > 1
    ensures WeightedSum(values, alpha) ==
      (1.0 - alpha) * WeightedSum(values[..|values| - 1], alpha) + alpha * values[|values| - 1]
  {
    var rest := values[..|values| - 1];
    TermsScaled(values, alpha, rest);
    SumScaled(Terms(values, alpha)[..|values| - 1], Terms(rest, alpha), 1.0 - alpha);
    LastTerm(|values|, alpha, values[|values| - 1]);
  }

  /** The smoothed value is a weighted sum of all the values. */
  lemma {:induction false} EwmaIsWeightedSum(values: seq<real>, alpha: real)
    requires values != []
    ensures Ewma(values, alpha) == WeightedSum(values, alpha)
  {
    if |values| == 1 {
      WeightedSumOne(values, alpha);
    } else {
      EwmaIsWeightedSum(values[..|values| - 1], alpha);
      WeightedSumSplit(values, alpha);
    }
  }

  lemma {:induction false} WeightsSum(n: nat, k: nat, alpha: real)
    requires 0 < k <= n
    ensures WeightSum(n, k, alpha) == Pow(1.0 - alpha, n - k)
  {
    if k == 1 {
      assert WeightSum(n, 0, alpha) == 0.0;
    } else {
      WeightsSum(n, k - 1, alpha);
      var p := Pow(1.0 - alpha, n - k);
      assert Pow(1.0 - alpha, n - (k - 1)) == (1.0 - alpha) * p;
      Distribute(p, 1.0 - alpha, alpha);
    }
  }

  /** The weights are non-negative and sum to one. */
  lemma {:induction false} WeightsAreConvex(n: nat, alpha: real)
    requires n > 0 && 0.0 <= alpha <= 1.0
    ensures forall i :: 0 <= i < n ==> Weight(n, i, alpha) >= 0.0
    ensures WeightSum(n, n, alpha) == 1.0
  {
    WeightsSum(n, n, alpha);
    forall i | 0 <= i < n ensures Weight(n, i, alpha) >= 0.0 {
      PowUnit(1.0 - alpha, n - 1 - i);
      Product(alpha, Pow(1.0 - alpha, n - 1 - i));
    }
  }

  ghost predicate Between(values: seq<real>, low: real, high: real) {
    forall i :: 0 <= i < |values| ==> low <= values[i] <= high
  }

  lemma {:induction false} Mix(alpha: real, x: real, y: real, low: real, high: real)
    requires 0.0 <= alpha <= 1.0 && low <= x <= high && low <= y <= high
    ensures low <= alpha * x + (1.0 - alpha) * y <= high
  {
    var beta := 1.0 - alpha;
    Product(alpha, x - low);
    Product(beta, y - low);
    Product(alpha, high - x);
    Product(beta, high - y);
    Distribute(alpha, x, -low);
    Distribute(beta, y, -low);
    Distribute(alpha, high, -x);
    Distribute(beta, high, -y);
    Distribute(low, alpha, beta);
    Distribute(high, alpha, beta);
  }

  /** Smoothing never leaves the range of its inputs. */
  lemma {:induction false} EwmaStaysBetween(values: seq<real>, alpha: real, low: real, high: real)
    requires values != [] && 0.0 <= alpha <= 1.0 && Between(values, low, high)
    ensures low <= Ewma(values, alpha) <= high
  {
    if |values| > 1 {
      EwmaStaysBetween(values[..|values| - 1], alpha, low, high);
      Mix(alpha, values[|values| - 1], Ewma(values[..|values| - 1], alpha), low, high);
    }
  }

  lemma {:induction false} ZeroLast(values: seq<real>, alpha: real)
    requires |values| > 1 && values[|values| - 1] == 0.0
    ensures Ewma(values, alpha) == (1.0 - alpha) * Ewma(values[..|values| - 1], alpha)
  {
  }

  /** `e` scaled by `x`, `k` times over. */
  function Scaled(e: real, x: real, k: nat): real { if k == 0 then e else x * Scaled(e, x, k - 1) }

  lemma {:induction false} ScaledIsPower(e: real, x: real, k: nat)
    ensures Scaled(e, x, k) == Pow(x, k) * e
  {
    if k > 0 {
      ScaledIsPower(e, x, k - 1);
      Associate(x, Pow(x, k - 1), e);
    }
  }

  lemma {:induction false} ScaledIsFraction(e: real, x: real, k: nat)
    requires 0.0 <= e <= 1.0 && 0.0 <= x <= 1.0
    ensures 0.0 <= Scaled(e, x, k) <= Pow(x, k)
  {
    PowUnit(x, k);
    ScaledIsPower(e, x, k);
    Fraction(Pow(x, k), e, Scaled(e, x, k));
  }

  lemma {:induction false} ZerosScale(values: seq<real>, k: nat, alpha: real)
    requires k < |values| && forall i :: |values| - k <= i < |values| ==> values[i] == 0.0
    ensures Ewma(values, alpha) == Scaled(Ewma(values[..|values| - k], alpha), 1.0 - alpha, k)
  {
    if k == 0 {
      assert values[..|values|] == values;
    } else {
      var rest := values[..|values| - 1];
      ZerosScale(rest, k - 1, alpha);
      assert rest[..|rest| - (k - 1)] == values[..|values| - k];
      ZeroLast(values, alpha);
    }
  }

  /** Each trailing zero scales the smoothed value by one minus alpha. */
  lemma {:induction false} TrailingZeros(values: seq<real>, k: nat, alpha: real)
    requires k < |values| && forall i :: |values| - k <= i < |values| ==> values[i] == 0.0
    ensures Ewma(values, alpha) == Pow(1.0 - alpha, k) * Ewma(values[..|values| - k], alpha)
  {
    ZerosScale(values, k, alpha);
    ScaledIsPower(Ewma(values[..|values| - k], alpha), 1.0 - alpha, k);
  }

  lemma {:induction false} PrefixIsFraction(values: seq<real>, n: nat, alpha: real)
    requires 0.0 <= alpha <= 1.0 && Between(values, 0.0, 1.0) && 0 < n <= |values|
    ensures 0.0 <= Ewma(values[..n], alpha) <= 1.0
  {
    assert Between(values[..n], 0.0, 1.0);
    EwmaStaysBetween(values[..n], alpha, 0.0, 1.0);
  }

  lemma {:induction false} DecaysAfter(values: seq<real>, k: nat, alpha: real)
    requires 0.0 <= alpha <= 1.0 && Between(values, 0.0, 1.0) && k < |values|
    requires forall i :: |values| - k <= i < |values| ==> values[i] == 0.0
    ensures 0.0 <= Ewma(values, alpha) <= Pow(1.0 - alpha, k)
  {
    PrefixIsFraction(values, |values| - k, alpha);
    ZerosScale(values, k, alpha);
    ScaledIsFraction(Ewma(values[..|values| - k], alpha), 1.0 - alpha, k);
  }

  /** Indicators in the unit interval decay at least that fast, even when every value is zero. */
  lemma {:induction false} Decays(values: seq<real>, k: nat, alpha: real)
    requires 0.0 <= alpha <= 1.0 && Between(values, 0.0, 1.0) && k <= |values|
    requires forall i :: |values| - k <= i < |values| ==> values[i] == 0.0
    ensures 0.0 <= Ewma(values, alpha) <= Pow(1.0 - alpha, k)
  {
    if k < |values| {
      DecaysAfter(values, k, alpha);
    } else {
      PowUnit(1.0 - alpha, k);
      if values != [] { EwmaStaysBetween(values, alpha, 0.0, 0.0); }
    }
  }

  // ---- the rates ---------------------------------------------------------

  /** Windows with data, oldest first. */
  function DataWindows(windows: seq<Summary>): seq<Summary> {
    if windows == [] then []
    else
      var rest, last := DataWindows(windows[..|windows| - 1]), windows[|windows| - 1];
      if last.Status().NoData? then rest else rest + [last]
  }

  function DivergenceIndicators(data: seq<Summary>): (r: seq<real>)
    ensures |r| == |data|
  {
    seq(|data|, k requires 0 <= k < |data| => if data[k].IsDiverged() then 1.0 else 0.0)
  }

  function DivergenceRate(windows: seq<Summary>, alpha: real): real {
    Ewma(DivergenceIndicators(DataWindows(windows)), alpha)
  }

  function Flip(previous: WindowStatus, current: WindowStatus): real {
    if current.Diverged? || previous.Diverged? then 1.0 else if current != previous then 1.0 else 0.0
  }

  function FlipIndicators(data: seq<Summary>): (r: seq<real>)
    ensures |r| == if |data| < 2 then 0 else |data| - 1
    ensures forall k :: 0 <= k < |r| ==> r[k] == Flip(data[k].Status(), data[k + 1].Status())
  {
    if |data| < 2 then []
    else seq(|data| - 1, k requires 0 <= k < |data| - 1 => Flip(data[k].Status(), data[k + 1].Status()))
  }

  function IntermittencyRate(windows: seq<Summary>, alpha: real): real {
    Ewma(FlipIndicators(DataWindows(windows)), alpha)
  }

  /** The loop over consecutive statuses. */
  method ComputeIntermittency(windows: seq<Summary>, alpha: real) returns (rate: real)
    ensures rate == IntermittencyRate(windows, alpha)
  {
    var data := DataWindows(windows);
    if |data| < 2 {
      return 0.0;
    }
    var indicators := [];
    for k := 0 to |data| - 1
      invariant |indicators| == k
      invariant forall i :: 0 <= i < k ==> indicators[i] == Flip(data[i].Status(), data[i + 1].Status())
    {
      var previous, current := data[k].Status(), data[k + 1].Status();
      if current.Diverged? || previous.Diverged? {
        indicators := indicators + [1.0];
      } else {
        indicators := indicators + [if current != previous then 1.0 else 0.0];
      }
    }
    assert indicators == FlipIndicators(data);
    rate := ComputeEwma(indicators, alpha);
  }

  predicate RetryDataAvailable(windows: seq<Summary>) { exists w :: w in windows && w.observations >= 2 }

  function FlakeRate(windows: seq<Summary>, alpha: real): real {
    if RetryDataAvailable(windows) then DivergenceRate(windows, alpha) else IntermittencyRate(windows, alpha)
  }

  /** The last `k` windows with data all passed. */
  ghost predicate QuietFor(data: seq<Summary>, k: nat) {
    k <= |data| && forall i :: |data| - k <= i < |data| ==> data[i].Status().Passed?
  }

  lemma {:induction false} PowShrinks(x: real, n: nat)
    requires 0.0 <= x <= 1.0 && n > 0
    ensures Pow(x, n) <= Pow(x, n - 1)
  {
    PowUnit(x, n - 1);
    ProductAtMost(Pow(x, n - 1), x);
  }

  lemma {:induction false} IndicatorsAreFractions(data: seq<Summary>, alpha: real)
    requires 0.0 <= alpha <= 1.0
    ensures 0.0 <= Ewma(DivergenceIndicators(data), alpha) <= 1.0
    ensures 0.0 <= Ewma(FlipIndicators(data), alpha) <= 1.0
  {
    FlipsBetween(data);
    Decays(DivergenceIndicators(data), 0, alpha);
    Decays(FlipIndicators(data), 0, alpha);
  }

  /** Every rate is a fraction. */
  lemma {:induction false} RatesAreFractions(windows: seq<Summary>, alpha: real)
    requires 0.0 <= alpha <= 1.0
    ensures 0.0 <= DivergenceRate(windows, alpha) <= 1.0
    ensures 0.0 <= IntermittencyRate(windows, alpha) <= 1.0
    ensures 0.0 <= FlakeRate(windows, alpha) <= 1.0
  {
    IndicatorsAreFractions(DataWindows(windows), alpha);
  }

  lemma {:induction false} DivergenceRecovers(data: seq<Summary>, alpha: real, k: nat)
    requires 0.0 <= alpha <= 1.0 && k > 0 && QuietFor(data, k)
    ensures Ewma(DivergenceIndicators(data), alpha) <= Pow(1.0 - alpha, k - 1)
  {
    Decays(DivergenceIndicators(data), k, alpha);
    PowShrinks(1.0 - alpha, k);
  }

  lemma FlipsBetween(data: seq<Summary>)
    ensures Between(FlipIndicators(data), 0.0, 1.0)
  {
  }

  lemma {:induction false} QuietFlips(data: seq<Summary>, k: nat, flips: seq<real>)
    requires k > 0 && QuietFor(data, k) && |data| >= 2 && flips == FlipIndicators(data)
    ensures k - 1 <= |flips| && forall i :: |flips| - (k - 1) <= i < |flips| ==> flips[i] == 0.0
  {
    forall i | |flips| - (k - 1) <= i < |flips| ensures flips[i] == 0.0 {
      assert data[i].Status().Passed? && data[i + 1].Status().Passed?;
    }
  }

  lemma {:induction false} FlipsRecover(data: seq<Summary>, alpha: real, k: nat)
    requires 0.0 <= alpha <= 1.0 && k > 0 && QuietFor(data, k)
    ensures Ewma(FlipIndicators(data), alpha) <= Pow(1.0 - alpha, k - 1)
  {
    var flips := FlipIndicators(data);
    if |data| < 2 {
      PowUnit(1.0 - alpha, k - 1);
    } else {
      FlipsBetween(data);
      QuietFlips(data, k, flips);
      Decays(flips, k - 1, alpha);
    }
  }

  /** Recovery: once `k` windows in a row have passed, the flake rate has fallen to at most
      (1 - alpha) ^ (k - 1), whatever came before and whichever rate is in use. */
  lemma {:induction false} Recovery(windows: seq<Summary>, alpha: real, k: nat)
    requires 0.0 <= alpha <= 1.0 && k > 0 && QuietFor(DataWindows(windows), k)
    ensures FlakeRate(windows, alpha) <= Pow(1.0 - alpha, k - 1)
  {
    if RetryDataAvailable(windows) {
      DivergenceRecovers(DataWindows(windows), alpha, k);
    } else {
      FlipsRecover(DataWindows(windows), alpha, k);
    }
  }
}
