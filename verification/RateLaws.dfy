/** What the two rates say about a history: when they are positive, when they are one, and what the latest commit
    counts for. */
module RateLaws {
  import opened History
  import opened Rates
  import Picking

  // ---- smoothing zeros and ones ------------------------------------------

  ghost predicate Bits(values: seq<real>) { forall i :: 0 <= i < |values| ==> values[i] == 0.0 || values[i] == 1.0 }

  ghost predicate AnyOne(values: seq<real>) { exists i :: 0 <= i < |values| && values[i] == 1.0 }

  ghost predicate AllOnes(values: seq<real>) { forall i :: 0 <= i < |values| ==> values[i] == 1.0 }

  lemma {:induction false} PositiveProduct(a: real, b: real)
    requires 0.0 < a && 0.0 < b
    ensures 0.0 < a * b
  {
  }

  lemma {:induction false} BitsBetween(values: seq<real>, alpha: real)
    requires Bits(values) && 0.0 < alpha < 1.0
    ensures 0.0 <= Ewma(values, alpha) <= 1.0
  {
    if values != [] { EwmaStaysBetween(values, alpha, 0.0, 1.0); }
  }

  lemma {:induction false} TimesEnds(beta: real)
    ensures beta * 0.0 == 0.0 && beta * 1.0 == beta
  {
  }

  lemma {:induction false} TwoShares(beta: real, x: real, y: real, share: real, rest: real)
    requires x + y == 1.0 && share == beta * x && rest == beta * y
    ensures share + rest == beta
  {
    assert beta * (x + y) == beta * x + beta * y;
    TimesEnds(beta);
  }

  lemma {:induction false} InnerShare(beta: real, x: real, share: real)
    requires 0.0 < beta && 0.0 < x < 1.0 && share == beta * x
    ensures 0.0 < share < beta
  {
    var y := 1.0 - x;
    var rest := beta * y;
    PositiveProduct(beta, x);
    PositiveProduct(beta, y);
    TwoShares(beta, x, y, share, rest);
  }

  lemma {:induction false} Share(beta: real, before: real, share: real)
    requires 0.0 < beta && 0.0 <= before <= 1.0 && share == beta * before
    ensures 0.0 <= share <= beta && (share > 0.0 <==> before > 0.0) && (share == beta <==> before == 1.0)
  {
    TimesEnds(beta);
    if before == 0.0 {
      assert share == beta * 0.0;
    } else if before == 1.0 {
      assert share == beta * 1.0;
    } else {
      InnerShare(beta, before, share);
    }
  }

  lemma {:induction false} SmoothedLast(values: seq<real>, alpha: real, share: real)
    requires |values| > 1 && share == (1.0 - alpha) * Ewma(values[..|values| - 1], alpha)
    ensures values[|values| - 1] == 1.0 ==> Ewma(values, alpha) == alpha + share
    ensures values[|values| - 1] == 0.0 ==> Ewma(values, alpha) == share
  {
    assert Ewma(values, alpha) == alpha * values[|values| - 1] + share;
  }

  lemma {:induction false} SmoothedStep(values: seq<real>, alpha: real, last: real, before: real)
    requires |values| > 1 && 0.0 < alpha < 1.0 && last == values[|values| - 1]
    requires before == Ewma(values[..|values| - 1], alpha) && 0.0 <= before <= 1.0 && (last == 0.0 || last == 1.0)
    ensures Ewma(values, alpha) > 0.0 <==> last == 1.0 || before > 0.0
    ensures Ewma(values, alpha) == 1.0 <==> last == 1.0 && before == 1.0
    ensures last == 1.0 ==> Ewma(values, alpha) >= alpha
    ensures last == 0.0 ==> Ewma(values, alpha) <= 1.0 - alpha
  {
    var share := (1.0 - alpha) * before;
    Share(1.0 - alpha, before, share);
    SmoothedLast(values, alpha, share);
  }

  /** Smoothed zeros and ones are positive exactly with a one among them, and one exactly if all are. */
  lemma {:induction false} BitsIff(values: seq<real>, alpha: real)
    requires values != [] && Bits(values) && 0.0 < alpha < 1.0
    ensures Ewma(values, alpha) > 0.0 <==> AnyOne(values)
    ensures Ewma(values, alpha) == 1.0 <==> AllOnes(values)
  {
    var n := |values| - 1;
    if n > 0 {
      var rest := values[..n];
      assert forall i :: 0 <= i < n ==> rest[i] == values[i];
      BitsIff(rest, alpha);
      BitsBetween(rest, alpha);
      SmoothedStep(values, alpha, values[n], Ewma(rest, alpha));
      assert AnyOne(values) <==> AnyOne(rest) || values[n] == 1.0;
      assert AllOnes(values) <==> AllOnes(rest) && values[n] == 1.0;
    }
  }

  lemma {:induction false} LastBit(values: seq<real>, alpha: real)
    requires values != [] && Bits(values) && 0.0 < alpha < 1.0
    ensures values[|values| - 1] == 1.0 ==> Ewma(values, alpha) >= alpha
    ensures |values| > 1 && values[|values| - 1] == 0.0 ==> Ewma(values, alpha) <= 1.0 - alpha
  {
    var n := |values| - 1;
    if n > 0 {
      BitsBetween(values[..n], alpha);
      SmoothedStep(values, alpha, values[n], Ewma(values[..n], alpha));
    }
  }

  // ---- one data window after the other -----------------------------------

  /** Two commits in a row differ in whether they failed, or one of them diverged. */
  predicate Flips(a: Summary, b: Summary) {
    (a.hasPass && a.hasFailure) || a.rerun || (b.hasPass && b.hasFailure) || b.rerun || a.hasFailure != b.hasFailure
  }

  /** Data windows `k` and `k + 1` do. */
  predicate FlipsAt(data: seq<Summary>, k: int)
    requires 0 <= k < |data| - 1
  {
    Flips(data[k], data[k + 1])
  }

  ghost predicate SomeFlip(data: seq<Summary>) { exists k :: 0 <= k < |data| - 1 && FlipsAt(data, k) }

  ghost predicate AlwaysFlips(data: seq<Summary>) { forall k :: 0 <= k < |data| - 1 ==> FlipsAt(data, k) }

  /** A window with data says what it saw. */
  lemma {:induction false} DataStatus(windows: seq<Summary>)
    ensures forall k :: 0 <= k < |DataWindows(windows)| ==> !DataWindows(windows)[k].Status().NoData?
  {
    if windows != [] { DataStatus(windows[..|windows| - 1]); }
  }

  lemma {:induction false} FlipIs(a: Summary, b: Summary)
    requires !a.Status().NoData? && !b.Status().NoData?
    ensures Flip(a.Status(), b.Status()) == if Flips(a, b) then 1.0 else 0.0
  {
  }

  lemma {:induction false} FlipAt(data: seq<Summary>, k: nat)
    requires k + 1 < |data| && !data[k].Status().NoData? && !data[k + 1].Status().NoData?
    ensures FlipIndicators(data)[k] == if FlipsAt(data, k) then 1.0 else 0.0
  {
    FlipIs(data[k], data[k + 1]);
  }

  /** Indicator by indicator, the flips. */
  ghost predicate IndicateFlips(data: seq<Summary>, flips: seq<real>) {
    && |flips| == |data| - 1
    && forall k :: 0 <= k < |flips| ==> flips[k] == if FlipsAt(data, k) then 1.0 else 0.0
  }

  lemma {:induction false} FlipsAre(windows: seq<Summary>)
    requires |DataWindows(windows)| >= 2
    ensures IndicateFlips(DataWindows(windows), FlipIndicators(DataWindows(windows)))
  {
    DataStatus(windows);
    forall k: nat | k + 1 < |DataWindows(windows)|
      ensures FlipIndicators(DataWindows(windows))[k] == if FlipsAt(DataWindows(windows), k) then 1.0 else 0.0
    {
      FlipAt(DataWindows(windows), k);
    }
  }

  lemma {:induction false} AnyFlip(data: seq<Summary>, flips: seq<real>)
    requires data != [] && IndicateFlips(data, flips)
    ensures Bits(flips) && (AnyOne(flips) <==> SomeFlip(data)) && (AllOnes(flips) <==> AlwaysFlips(data))
  {
    if k :| 0 <= k < |flips| && flips[k] == 1.0 { assert FlipsAt(data, k); }
    if k :| 0 <= k < |data| - 1 && FlipsAt(data, k) { assert flips[k] == 1.0; }
    if AllOnes(flips) {
      forall k | 0 <= k < |data| - 1 ensures FlipsAt(data, k) { assert flips[k] == 1.0; }
    }
  }

  /** The rate over outcome flips: positive exactly if some two commits in a row differ or one of them diverged, one
      exactly if all do, and at least alpha, or at most one minus alpha, by the last two. */
  lemma {:induction false} IntermittencyMeaning(windows: seq<Summary>, alpha: real)
    requires 0.0 < alpha < 1.0
    ensures var data, rate := DataWindows(windows), IntermittencyRate(windows, alpha);
      && (|data| < 2 ==> rate == 0.0)
      && (|data| >= 2 ==>
        && (rate > 0.0 <==> SomeFlip(data))
        && (rate == 1.0 <==> AlwaysFlips(data))
        && (FlipsAt(data, |data| - 2) ==> rate >= alpha)
        && (|data| >= 3 && !FlipsAt(data, |data| - 2) ==> rate <= 1.0 - alpha))
  {
    var data := DataWindows(windows);
    if |data| >= 2 {
      FlipsAre(windows);
      AnyFlip(data, FlipIndicators(data));
      BitsIff(FlipIndicators(data), alpha);
      LastBit(FlipIndicators(data), alpha);
    }
  }

  // ---- divergence --------------------------------------------------------

  predicate DivergedAt(data: seq<Summary>, k: int)
    requires 0 <= k < |data|
  {
    (data[k].hasPass && data[k].hasFailure) || data[k].rerun
  }

  /** The rate of divergence: positive exactly if some commit diverged, one exactly if every commit with data did. */
  lemma {:induction false} DivergenceMeaning(windows: seq<Summary>, alpha: real)
    requires 0.0 < alpha < 1.0
    ensures var data, rate := DataWindows(windows), DivergenceRate(windows, alpha);
      && (data == [] ==> rate == 0.0)
      && (data != [] ==>
        && (rate > 0.0 <==> exists k :: 0 <= k < |data| && DivergedAt(data, k))
        && (rate == 1.0 <==> forall k :: 0 <= k < |data| ==> DivergedAt(data, k))
        && (DivergedAt(data, |data| - 1) ==> rate >= alpha)
        && (|data| >= 2 && !DivergedAt(data, |data| - 1) ==> rate <= 1.0 - alpha))
  {
    var data := DataWindows(windows);
    if data != [] {
      var bits := DivergenceIndicators(data);
      assert forall k :: 0 <= k < |data| ==> bits[k] == if DivergedAt(data, k) then 1.0 else 0.0;
      BitsIff(bits, alpha);
      LastBit(bits, alpha);
      assert AnyOne(bits) <==> exists k :: 0 <= k < |data| && DivergedAt(data, k) by {
        if k :| 0 <= k < |data| && DivergedAt(data, k) { assert bits[k] == 1.0; }
      }
    }
  }

  // ---- the windows that count --------------------------------------------

  predicate HasData(w: Summary) { (w.hasPass && w.hasFailure) || w.rerun || w.observations > 0 }

  lemma {:induction false} DataSnoc(windows: seq<Summary>, last: Summary)
    ensures DataWindows(windows + [last]) ==
      if HasData(last) then DataWindows(windows) + [last] else DataWindows(windows)
  {
    assert (windows + [last])[..|windows|] == windows;
  }

  lemma {:induction false} DataStep(before: seq<Summary>, last: Summary, windows: seq<Summary>)
    requires windows == before + [last] && Picking.Picked(before, DataWindows(before), HasData)
    ensures Picking.Picked(windows, DataWindows(windows), HasData)
  {
    Picking.PickedSnoc(before, DataWindows(before), HasData, last);
    DataSnoc(before, last);
  }

  ghost predicate DataPicked(windows: seq<Summary>) { Picking.Picked(windows, DataWindows(windows), HasData) }

  lemma {:induction false} NoData()
    ensures DataPicked([])
  {
    Picking.PickedNone(HasData);
  }

  /** The data windows are those with an observation or a rerun, in the order they came. */
  lemma {:induction false} DataInOrder(windows: seq<Summary>)
    ensures DataPicked(windows)
    decreases |windows|
  {
    if windows == [] {
      NoData();
    } else {
      var before, last := windows[..|windows| - 1], windows[|windows| - 1];
      DataInOrder(before);
      DataStep(before, last, windows);
    }
  }

  /** With alpha one only the latest commit counts. */
  lemma {:induction false} FullWeight(values: seq<real>)
    requires values != []
    ensures Ewma(values, 1.0) == values[|values| - 1]
  {
  }

  /** The headline rate is that of divergence as soon as some commit was observed twice. */
  lemma {:induction false} FlakeRateIs(windows: seq<Summary>, alpha: real)
    ensures FlakeRate(windows, alpha) ==
      if exists w :: w in windows && w.observations >= 2 then DivergenceRate(windows, alpha)
      else IntermittencyRate(windows, alpha)
  {
  }
}
