/** detect/detector.py: signals consulted in a fixed order, and the verdict they give. */
module Detector {
  import opened Models
  import opened History
  import opened Rates
  import opened Store
  import opened HistoryLaws

  datatype DetectConfig = DetectConfig(
    windowExecutions: nat, minObservations: nat, flakeRateThreshold: real, ewmaAlpha: real,
    regressionPassStreak: nat, regressionFailStreak: nat, mainBranch: string)

  /** The bounds the configuration model enforces. */
  predicate ConfigOk(c: DetectConfig) {
    && c.windowExecutions >= 1 && c.minObservations >= 1 && 0.0 <= c.flakeRateThreshold <= 1.0
    && 0.0 < c.ewmaAlpha <= 1.0 && c.regressionPassStreak >= 1 && c.regressionFailStreak >= 1
  }

  datatype Signal = SameShaDivergence | CrossAttemptDivergence | BranchIndependent | HistoricalInstability

  datatype Evidence = Evidence(signal: Signal, observations: nat)

  datatype Finding = Finding(pivotSha: nat, passStreak: nat, failStreak: nat)

  datatype Verdict = Flaky | Regression | NewFailure | PersistentFailure | Healthy

  datatype Confidence = High | Medium | Low

  // ---- divergence --------------------------------------------------------

  function DivergedWindows(windows: seq<Summary>): seq<Summary> {
    if windows == [] then []
    else
      var rest, last := DivergedWindows(windows[..|windows| - 1]), windows[|windows| - 1];
      if last.IsDiverged() then rest + [last] else rest
  }

  function AcrossAttempts(windows: seq<Summary>): seq<Summary> {
    if windows == [] then []
    else
      var rest, last := AcrossAttempts(windows[..|windows| - 1]), windows[|windows| - 1];
      if last.DivergedAcrossAttempts() then rest + [last] else rest
  }

  function ObservationsIn(windows: seq<Summary>): nat {
    if windows == [] then 0 else ObservationsIn(windows[..|windows| - 1]) + windows[|windows| - 1].observations
  }

  function FindSameShaDivergence(windows: seq<Summary>): seq<Evidence> {
    var diverged := DivergedWindows(windows);
    if diverged == [] then []
    else
      var across := AcrossAttempts(diverged);
      [Evidence(SameShaDivergence, ObservationsIn(diverged))]
      + if across == [] then [] else [Evidence(CrossAttemptDivergence, ObservationsIn(across))]
  }

  lemma {:induction false} DivergedAre(windows: seq<Summary>)
    ensures forall w :: w in DivergedWindows(windows) <==> w in windows && w.IsDiverged()
  {
    if windows != [] {
      DivergedAre(windows[..|windows| - 1]);
      assert windows == windows[..|windows| - 1] + [windows[|windows| - 1]];
    }
  }

  // ---- regression --------------------------------------------------------

  /** How many windows at the end have the status. */
  function Trailing(data: seq<Summary>, status: WindowStatus): (n: nat)
    ensures n <= |data|
  {
    if data == [] || data[|data| - 1].Status() != status then 0 else 1 + Trailing(data[..|data| - 1], status)
  }

  method CountTrailing(data: seq<Summary>, status: WindowStatus) returns (n: nat)
    ensures n == Trailing(data, status)
  {
    n := 0;
    assert data[..|data|] == data;
    while n < |data| && data[|data| - 1 - n].Status() == status
      invariant n <= |data| && Trailing(data, status) == n + Trailing(data[..|data| - n], status)
    {
      assert data[..|data| - n][..|data| - n - 1] == data[..|data| - n - 1];
      n := n + 1;
    }
  }

  predicate SomeDiverged(data: seq<Summary>) { exists w :: w in data && w.Status().Diverged? }

  function FindRegression(windows: seq<Summary>, config: DetectConfig): Option<Finding> {
    var data := DataWindows(windows);
    if SomeDiverged(data) then None
    else
      var failures := Trailing(data, Failed);
      var passes := Trailing(data[..|data| - failures], Passed);
      if failures < config.regressionFailStreak || passes < config.regressionPassStreak then None
      else Some(Finding(if failures > 0 then data[|data| - failures].commitSha else 0, passes, failures))
  }

  method ComputeRegression(windows: seq<Summary>, config: DetectConfig) returns (finding: Option<Finding>)
    requires ConfigOk(config)
    ensures finding == FindRegression(windows, config)
  {
    var data := DataWindows(windows);
    if SomeDiverged(data) {
      return None;
    }
    var trailingFailures := CountTrailing(data, Failed);
    if trailingFailures < config.regressionFailStreak {
      return None;
    }
    var leadingPasses := CountTrailing(data[..|data| - trailingFailures], Passed);
    if leadingPasses < config.regressionPassStreak {
      return None;
    }
    var pivot := data[|data| - trailingFailures];
    finding := Some(Finding(pivot.commitSha, leadingPasses, trailingFailures));
  }

  /** The data ends in `passes` passed windows followed by `fails` failed ones. */
  ghost predicate CleanBreak(data: seq<Summary>, passes: nat, fails: nat) {
    && passes + fails <= |data|
    && (forall i :: |data| - fails <= i < |data| ==> data[i].Status().Failed?)
    && (forall i :: |data| - fails - passes <= i < |data| - fails ==> data[i].Status().Passed?)
  }

  lemma {:induction false} TrailingIs(data: seq<Summary>, status: WindowStatus)
    ensures var n := Trailing(data, status);
      && (forall i :: |data| - n <= i < |data| ==> data[i].Status() == status)
      && (n < |data| ==> data[|data| - 1 - n].Status() != status)
  {
    if data != [] && data[|data| - 1].Status() == status { TrailingIs(data[..|data| - 1], status); }
  }

  lemma {:induction false} TrailingMost(data: seq<Summary>, status: WindowStatus, k: nat)
    requires k <= |data| && forall i :: |data| - k <= i < |data| ==> data[i].Status() == status
    ensures k <= Trailing(data, status)
    ensures k < |data| && data[|data| - 1 - k].Status() != status ==> k == Trailing(data, status)
  {
    TrailingIs(data, status);
  }

  ghost predicate LongBreak(data: seq<Summary>, config: DetectConfig) {
    exists p: nat, f: nat ::
      p >= config.regressionPassStreak && f >= config.regressionFailStreak && CleanBreak(data, p, f)
  }

  lemma {:induction false} LongBreakCounts(data: seq<Summary>, p: nat, f: nat)
    requires CleanBreak(data, p, f) && p > 0
    ensures var failures := Trailing(data, Failed);
      failures == f && p <= Trailing(data[..|data| - failures], Passed)
  {
    TrailingMost(data, Failed, f);
    assert data[|data| - f - 1].Status().Passed?;
    var before := data[..|data| - f];
    forall i | |before| - p <= i < |before| ensures before[i].Status() == Passed {
      assert before[i] == data[i];
    }
    TrailingMost(before, Passed, p);
  }

  lemma {:induction false} TrailingBefore(data: seq<Summary>, f: nat, p: nat)
    requires f <= |data| && p == Trailing(data[..|data| - f], Passed)
    ensures p + f <= |data|
    ensures forall i :: |data| - f - p <= i < |data| - f ==> data[i].Status() == Passed
    ensures p + f < |data| ==> data[|data| - f - p - 1].Status() != Passed
  {
    var n := |data| - f;
    TrailingIs(data[..n], Passed);
    forall i | n - p <= i < n ensures data[i].Status() == Passed {
      assert data[..n][i] == data[i];
    }
    if p < n { assert data[..n][n - 1 - p] == data[n - 1 - p]; }
  }

  lemma {:induction false} TrailingCounts(data: seq<Summary>)
    ensures var f := Trailing(data, Failed);
      var p := Trailing(data[..|data| - f], Passed);
      && CleanBreak(data, p, f)
      && (p + f < |data| ==> !data[|data| - f - p - 1].Status().Passed?)
  {
    var f := Trailing(data, Failed);
    TrailingIs(data, Failed);
    TrailingBefore(data, f, Trailing(data[..|data| - f], Passed));
  }

  /** The streaks reported are maximal and the pivot is the first failure. */
  ghost predicate MaximalBreak(data: seq<Summary>, found: Finding) {
    && 0 < found.failStreak && CleanBreak(data, found.passStreak, found.failStreak)
    && found.pivotSha == data[|data| - found.failStreak].commitSha
    && (found.passStreak + found.failStreak < |data| ==>
          !data[|data| - found.failStreak - found.passStreak - 1].Status().Passed?)
  }

  /** A regression is found exactly when nothing diverged and the data ends in enough passes followed by
      enough failures. */
  lemma {:induction false} RegressionIff(windows: seq<Summary>, config: DetectConfig)
    requires ConfigOk(config)
    ensures FindRegression(windows, config).Some? <==>
      !SomeDiverged(DataWindows(windows)) && LongBreak(DataWindows(windows), config)
    ensures FindRegression(windows, config).Some? ==>
      MaximalBreak(DataWindows(windows), FindRegression(windows, config).value)
  {
    var data := DataWindows(windows);
    TrailingCounts(data);
    if LongBreak(data, config) {
      var p: nat, f: nat :| p >= config.regressionPassStreak && f >= config.regressionFailStreak &&
        CleanBreak(data, p, f);
      LongBreakCounts(data, p, f);
    }
  }

  // ---- weaker signals ----------------------------------------------------

  /** Footprint matching is outside the model: `touches` stands for it. */
  datatype BranchContext = BranchContext(diffPaths: set<string>, footprint: set<string>, touches: bool)

  function BranchOf(w: Window): string
    requires w.records != []
  {
    w.records[0].branch
  }

  function PassedOnMain(windows: seq<Window>, mainBranch: string): nat
    requires Nonempty(windows)
  {
    if windows == [] then 0
    else
      var w := windows[|windows| - 1];
      assert w in windows && forall v :: v in windows[..|windows| - 1] ==> v in windows;
      PassedOnMain(windows[..|windows| - 1], mainBranch)
      + if BranchOf(w) == mainBranch && Summarize(w).Status().Passed? then 1 else 0
  }

  function FindBranchIndependent(windows: seq<Window>, context: BranchContext, config: DetectConfig): Option<Evidence>
    requires Nonempty(windows)
  {
    if windows == [] then None
    else
      var latest := windows[|windows| - 1];
      assert latest in windows;
      if !HasFailure(latest.records) || BranchOf(latest) == config.mainBranch || BranchOf(latest) == "" then None
      else if context.diffPaths == {} || context.footprint == {} || context.touches then None
      else
        var passed := PassedOnMain(windows, config.mainBranch);
        if passed == 0 then None else Some(Evidence(BranchIndependent, passed))
  }

  function FindHistoricalInstability(windows: seq<Summary>, config: DetectConfig): Option<Evidence> {
    var observations := ObservationsIn(windows);
    if observations < config.minObservations then None
    else if FlakeRate(windows, config.ewmaAlpha) <= config.flakeRateThreshold then None
    else Some(Evidence(HistoricalInstability, observations))
  }

  // ---- the verdict -------------------------------------------------------

  predicate Fired(signals: seq<Evidence>, signal: Signal) { exists e :: e in signals && e.signal == signal }

  function ConfidenceOf(signals: seq<Evidence>, windows: seq<Summary>, config: DetectConfig): Confidence {
    if Fired(signals, SameShaDivergence) || Fired(signals, CrossAttemptDivergence) then
      if |DivergedWindows(windows)| >= 2 then High else Medium
    else if Fired(signals, HistoricalInstability) then
      if RetryDataAvailable(windows) && ObservationsIn(windows) >= config.minObservations * 2 then Medium else Low
    else Low
  }

  function Decide(windows: seq<Summary>, signals: seq<Evidence>, regression: Option<Finding>,
                  config: DetectConfig): (Verdict, Confidence) {
    if signals != [] && (signals[0].signal.SameShaDivergence? || signals[0].signal.CrossAttemptDivergence?) then
      (Flaky, ConfidenceOf(signals, windows, config))
    else if regression.Some? then
      (Regression,
       if regression.value.passStreak >= config.regressionPassStreak * 2 &&
         regression.value.failStreak >= config.regressionFailStreak
       then High else Medium)
    else if windows == [] || !windows[|windows| - 1].hasFailure then (Healthy, High)
    else if signals != [] then (Flaky, ConfidenceOf(signals, windows, config))
    else if |windows| <= 1 then (NewFailure, Low)
    else if ObservationsIn(windows) < config.minObservations then (PersistentFailure, Low)
    else (PersistentFailure, Medium)
  }

  datatype Detection = Detection(
    identityId: nat, verdict: Verdict, confidence: Confidence, signals: seq<Evidence>, flakeRate: real,
    divergenceRate: real, intermittencyRate: real, observations: nat, windows: nat, infraExcluded: nat,
    regressionSha: Option<nat>, mergedUncertain: bool)

  function OptionToSeq<T>(o: Option<T>): seq<T> { if o.Some? then [o.value] else [] }

  function SignalsOf(h: HistoryOf, context: BranchContext, config: DetectConfig): seq<Evidence>
    requires Nonempty(h.windows)
  {
    var s := Summaries(h.windows);
    var divergence := FindSameShaDivergence(s);
    if divergence == [] && FindRegression(s, config).Some? then divergence
    else
      divergence + OptionToSeq(FindBranchIndependent(h.windows, context, config))
      + OptionToSeq(FindHistoricalInstability(s, config))
  }

  function DetectForHistory(identityId: nat, h: HistoryOf, context: BranchContext, mergedUncertain: bool,
                            config: DetectConfig): Detection
    requires Nonempty(h.windows)
  {
    var s := Summaries(h.windows);
    var regression := if FindSameShaDivergence(s) == [] then FindRegression(s, config) else None;
    var signals := SignalsOf(h, context, config);
    var (verdict, confidence) := Decide(s, signals, regression, config);
    Detection(identityId, verdict, confidence, signals, FlakeRate(s, config.ewmaAlpha),
      DivergenceRate(s, config.ewmaAlpha),
              IntermittencyRate(s, config.ewmaAlpha), ObservationsIn(s), |s|, h.infraExcluded,
              if regression.Some? then Some(regression.value.pivotSha) else None, mergedUncertain)
  }

  /** The evidence a detection carries is that of the summaries. */
  lemma {:induction false} DetectedRates(identityId: nat, h: HistoryOf, context: BranchContext, merged: bool,
                                         config: DetectConfig)
    requires Nonempty(h.windows)
    ensures var d := DetectForHistory(identityId, h, context, merged, config);
      d.identityId == identityId && d.flakeRate == FlakeRate(Summaries(h.windows), config.ewmaAlpha)
  {
  }

  lemma {:induction false} DataAre(windows: seq<Summary>)
    ensures forall w :: w in DataWindows(windows) <==> w in windows && !w.Status().NoData?
  {
    if windows != [] {
      DataAre(windows[..|windows| - 1]);
      assert windows == windows[..|windows| - 1] + [windows[|windows| - 1]];
    }
  }

  /** One diverged commit anywhere decides FLAKY; no streak or rate can override it. */
  lemma {:induction false} DivergenceWins(identityId: nat, h: HistoryOf, context: BranchContext, merged: bool,
                                          config: DetectConfig)
    requires Nonempty(h.windows) && exists w :: w in Summaries(h.windows) && w.IsDiverged()
    ensures DetectForHistory(identityId, h, context, merged, config).verdict.Flaky?
  {
    DivergedAre(Summaries(h.windows));
    assert FindSameShaDivergence(Summaries(h.windows))[0].signal.SameShaDivergence?;
    assert SignalsOf(h, context, config)[0] == FindSameShaDivergence(Summaries(h.windows))[0];
  }

  lemma {:induction false} DivergedIsData(s: seq<Summary>)
    ensures DivergedWindows(s) != [] <==> SomeDiverged(DataWindows(s))
  {
    DivergedAre(s);
    DataAre(s);
    if DivergedWindows(s) != [] {
      var w := DivergedWindows(s)[0];
      assert w in DivergedWindows(s);
      assert w in DataWindows(s) && w.Status().Diverged?;
    }
    if SomeDiverged(DataWindows(s)) {
      var w :| w in DataWindows(s) && w.Status().Diverged?;
      assert w in DivergedWindows(s);
    }
  }

  lemma {:induction false} DivergenceExcludesRegression(s: seq<Summary>, config: DetectConfig)
    ensures FindSameShaDivergence(s) != [] ==> FindRegression(s, config).None?
  {
    DivergedIsData(s);
  }

  /** How the verdict depends on the signals, when divergence comes first among them or is absent. */
  lemma {:induction false} RegressionDecides(windows: seq<Summary>, signals: seq<Evidence>, regression: Option<Finding>,
                                             config: DetectConfig)
    requires regression.Some? ==> signals == []
    ensures Decide(windows, signals, regression, config).0.Regression? <==> regression.Some?
  {
  }

  /** The verdict is REGRESSION exactly when a regression is found, and then the signals cannot say otherwise. */
  lemma {:induction false} RegressionVerdictIff(identityId: nat, h: HistoryOf, context: BranchContext, merged: bool,
                                                config: DetectConfig)
    requires Nonempty(h.windows) && ConfigOk(config)
    ensures var d := DetectForHistory(identityId, h, context, merged, config);
      && (d.verdict.Regression? <==> FindRegression(Summaries(h.windows), config).Some?)
      && (d.verdict.Regression? <==> d.regressionSha.Some?)
  {
    var s := Summaries(h.windows);
    DivergenceExcludesRegression(s, config);
    RegressionDecides(s, SignalsOf(h, context, config), FindRegression(s, config), config);
  }

  /** Rates, divergence evidence and regression do not change under any reordering of the records or
      any insertion of infrastructure failures. */
  lemma {:induction false} SignalsForgetOrder(h: HistoryOf, h': HistoryOf, a: seq<ExecutionRecord>,
                                              b: seq<ExecutionRecord>, platform: ExecutionRecord -> bool,
                                              config: DetectConfig)
    requires IsHistory(h, a, platform) && IsHistory(h', b, platform) && SameEvidence(a, b, platform)
    ensures Nonempty(h.windows) && Nonempty(h'.windows)
    ensures var s, s' := Summaries(h.windows), Summaries(h'.windows);
      && |s| == |s'| &&
        (forall k :: 0 <= k < |s| ==> s[k].commitSha == s'[k].commitSha && s[k].Status() == s'[k].Status())
      && FlakeRate(s, config.ewmaAlpha) == FlakeRate(s', config.ewmaAlpha)
      && DivergenceRate(s, config.ewmaAlpha) == DivergenceRate(s', config.ewmaAlpha)
      && IntermittencyRate(s, config.ewmaAlpha) == IntermittencyRate(s', config.ewmaAlpha)
      && FindSameShaDivergence(s) == FindSameShaDivergence(s')
      && FindRegression(s, config) == FindRegression(s', config)
  {
    SummariesForgetOrder(h, h', a, b, platform);
  }

  lemma {:induction false} ObservationsTotal(windows: seq<Window>)
    requires Nonempty(windows)
    ensures ObservationsIn(Summaries(windows)) == Total(windows, CountsIfObserved)
  {
    if windows != [] {
      var n := |windows| - 1;
      assert windows[n] in windows && forall w :: w in windows[..n] ==> w in windows;
      ObservationsTotal(windows[..n]);
      assert Summaries(windows)[..n] == Summaries(windows[..n]);
      TotalSnoc(windows[..n], windows[n]);
      assert windows == windows[..n] + [windows[n]];
    }
  }

  lemma {:induction false} TotalSnoc(windows: seq<Window>, w: Window)
    ensures Total(windows + [w], CountsIfObserved) ==
      Total(windows, CountsIfObserved) + Weigh(w.records, CountsIfObserved)
  {
    if windows == [] {
      assert windows + [w] == [w] && [w][1..] == [];
    } else {
      assert (windows + [w])[1..] == windows[1..] + [w];
      TotalSnoc(windows[1..], w);
    }
  }

  /** The observation count a detection reports is the number of records neither excluded nor skipped. */
  lemma {:induction false} ReportedObservations(identityId: nat, h: HistoryOf, records: seq<ExecutionRecord>,
                                                platform: ExecutionRecord -> bool, context: BranchContext, merged: bool,
                                                config: DetectConfig)
    requires IsHistory(h, records, platform)
    ensures Nonempty(h.windows)
    ensures var d := DetectForHistory(identityId, h, context, merged, config);
      d.observations + d.infraExcluded + h.skipped == |records|
  {
    ObservationsTotal(h.windows);
    NothingLost(h, records, platform);
  }
}
